/** The configuration store: one blob per schema generation, migrated on the first load. */
module ConfigRepository {
  import opened Ticks
  import opened DecoderModel
  import opened AppConfigModel
  import opened AppConfigValidation
  import opened PersistedConfig
  import opened ConfigRoundTrip
  import opened KeptValidity
  import ConfigValidator
  import ConfigCodec

  /** A blob of one of the known sizes, or of another. */
  datatype Blob = BlobV1(v1: PersistedV1) | BlobV2(v2: PersistedV2) | BlobV3(v3: PersistedV3) | BlobV4(v4: PersistedV4)
                | OtherBlob(size: nat)

  const SIZE_V1: nat := 387
  const SIZE_V2: nat := 392
  const SIZE_V3: nat := 407
  const SIZE_V4: nat := 2171

  function Size(blob: Blob): nat {
    match blob
    case BlobV1(_) => SIZE_V1
    case BlobV2(_) => SIZE_V2
    case BlobV3(_) => SIZE_V3
    case BlobV4(_) => SIZE_V4
    case OtherBlob(size) => size
  }

  ghost predicate BlobShaped(blob: Blob) {
    match blob
    case BlobV1(v1) => V1Shaped(v1)
    case BlobV2(v2) => V1Shaped(v2.v1)
    case BlobV3(v3) => V1Shaped(v3.commonAndSlotA.v1)
    case BlobV4(v4) => Shaped(v4)
    case OtherBlob(size) => size !in {SIZE_V1, SIZE_V2, SIZE_V3, SIZE_V4}
  }

  /** What the namespace holds under `config_v4`, `config_v3` and `config_v1`. */
  datatype Nvs = Nvs(v4: Option<Blob>, v3: Option<Blob>, v1: Option<Blob>)
  {
    ghost predicate Valid() {
      && (v4.Some? ==> BlobShaped(v4.value))
      && (v3.Some? ==> BlobShaped(v3.value))
      && (v1.Some? ==> BlobShaped(v1.value))
    }
  }

  datatype Status = Ok | NotFound | InvalidArg | InvalidLength | InvalidVersion | InvalidSize | InvalidState | NvsFailed

  datatype Pick = Picked(record: PersistedV4, migrated: bool) | Refused(status: Status)

  /** A blob that does not fit its buffer is an error of the store, any other misfit one of version. */
  function Misfit(blob: Blob, buffer: nat): Status {
    if Size(blob) > buffer then InvalidLength else InvalidVersion
  }

  function PickV4(record: PersistedV4, migrated: bool): Pick {
    var v1 := record.v3.commonAndSlotA.v1;
    if v1.magic == MAGIC && v1.schemaVersion == SCHEMA_VERSION
    then Picked(record, migrated) else Refused(InvalidVersion)
  }

  function Preset(): PersistedDecoder {
    EmptyDecoder(EndpointPreset)
  }

  function MigratedV3(v3: PersistedV3): PersistedV4 {
    var v1 := v3.commonAndSlotA.v1.(schemaVersion := SCHEMA_VERSION);
    PersistedV4(v3.(commonAndSlotA := v3.commonAndSlotA.(v1 := v1)), Preset())
  }

  /** Schema 1 knew neither the sensor's endpoint nor its stability time. */
  function MigratedV2(v2: PersistedV2): PersistedV4 {
    var current := v2.(v1 := v2.v1.(schemaVersion := SCHEMA_VERSION));
    var filled := if v2.v1.schemaVersion == 1
                  then current.(sensorActiveEndpoint := EndpointCode(ClosedEndpoint), sensorEndpointStabilityMs := 2000)
                  else current;
    PersistedV4(PersistedV3(filled, ProfileCode(Sequential), TopologyCode(SingleFeedback), ZERO_OUTPUT, ZERO_INPUT),
                Preset())
  }

  /** The record `load` works on: the newest key that exists, brought to the current schema. */
  function PickRecord(nvs: Nvs): (pick: Pick)
    ensures pick.Refused? ==> !pick.status.Ok?
  {
    match nvs.v4
    case Some(BlobV4(record)) => PickV4(record, false)
    case Some(blob) => Refused(Misfit(blob, SIZE_V4))
    case None =>
      match nvs.v3
      case Some(BlobV3(v3)) =>
        if v3.commonAndSlotA.v1.magic == MAGIC && v3.commonAndSlotA.v1.schemaVersion == 3
        then Picked(MigratedV3(v3), true)
        else Refused(InvalidVersion)
      case Some(blob) => Refused(Misfit(blob, SIZE_V3))
      case None =>
        match nvs.v1
        case Some(BlobV1(v1)) => PickLegacy(PersistedV2(v1, 0, 0))
        case Some(BlobV2(v2)) => PickLegacy(v2)
        case Some(blob) => Refused(Misfit(blob, SIZE_V2))
        case None => Refused(NotFound)
  }

  function PickLegacy(v2: PersistedV2): Pick {
    if v2.v1.magic == MAGIC && v2.v1.schemaVersion in {1, 2}
    then Picked(MigratedV2(v2), true) else Refused(InvalidVersion)
  }

  const ZERO_V1 :=
    PersistedV1(0, 0, [], [], 0, [], 0, [], [], [], 0, 0, 0, 0, 0, 0, 0, 0, 0, 0, 0, [], 0, [], 0, 0)
  const ZERO_V2 := PersistedV2(ZERO_V1, 0, 0)

  /** The counts and lengths of the record lie within its arrays. */
  ghost predicate Decodable(record: PersistedV4) {
    && Shaped(record) && RecordFits(record.decoder)
    && record.v3.commonAndSlotA.v1.adminSaltLength <= 32 && record.v3.commonAndSlotA.v1.adminVerifierLength <= 64
  }

  ghost predicate Loadable(record: PersistedV4) {
    && Decodable(record)
    && WellShaped(Decoded(record).gateOperator.decoder) && Validates(Decoded(record))
  }

  lemma PickedIsShaped(nvs: Nvs)
    requires nvs.Valid() && PickRecord(nvs).Picked?
    ensures Shaped(PickRecord(nvs).record)
    ensures PickRecord(nvs).migrated ==> PickRecord(nvs).record.decoder == Preset()
  {
    ZeroRecordsAreShaped();
  }

  // ---- The promises ----

  /** What a successful save leaves is loaded as the configuration that was saved, but for what the
      record has no place for; and it is accepted. */
  lemma SaveThenLoad(nvs: Nvs, config: AppConfig)
    requires Fits(config) && WellShaped(config.gateOperator.decoder) && Validates(config)
    requires Roomy(config) && nvs.v4 == Some(BlobV4(Encoded(config)))
    ensures PickRecord(nvs) == Picked(Encoded(config), false)
    ensures Loadable(Encoded(config)) && Decoded(Encoded(config)) == Kept(config)
  {
    DecodedEncoded(config);
    KeptValidates(config);
    EncodedHead(config);
    hide Encoded, Decoded, Kept, Fits, Roomy, Validates, DecoderFits, Shaped, RecordFits, WellShaped;
  }

  lemma EncodedHead(config: AppConfig)
    requires DecoderFits(config.gateOperator.decoder) && Roomy(config)
    ensures var v1 := Encoded(config).v3.commonAndSlotA.v1;
            && v1.magic == MAGIC && v1.schemaVersion == SCHEMA_VERSION
            && v1.adminSaltLength <= 32 && v1.adminVerifierLength <= 64
  {
    hide EncodedDecoder, DecoderFits, CopyString;
  }

  /** A configuration migrated from an older schema fits, so that storing it loses nothing. */
  lemma MigratedFits(nvs: Nvs)
    requires nvs.Valid() && PickRecord(nvs).Picked? && PickRecord(nvs).migrated && Loadable(PickRecord(nvs).record)
    ensures Fits(Decoded(PickRecord(nvs).record)) && Roomy(Decoded(PickRecord(nvs).record))
  {
    PickedIsShaped(nvs);
    var record := PickRecord(nvs).record;
    LoadedIsSettled(record);
    NoSlotsUsed(record);
    ValidIsRoomy(Decoded(record));
    hide PickRecord, Fits, Decoded;
  }

  lemma NoSlotsUsed(record: PersistedV4)
    requires Decodable(record) && record.decoder == Preset()
    ensures DecoderFits(Decoded(record).gateOperator.decoder) && LabelsEnd(Decoded(record).gateOperator.decoder)
  {
    LoadedIsSettled(record);
    hide DecoderFits, RecordFits, Shaped, ReadString;
  }

  /** Migration happens once: the second load finds the current schema and yields the same
      configuration. */
  lemma MigratedLoadsAgain(nvs: Nvs, later: Nvs)
    requires nvs.Valid() && PickRecord(nvs).Picked? && PickRecord(nvs).migrated && Loadable(PickRecord(nvs).record)
    requires var config := Decoded(PickRecord(nvs).record);
             Fits(config) && Roomy(config) && later.v4 == Some(BlobV4(Encoded(config)))
    ensures var config := Decoded(PickRecord(nvs).record);
            && PickRecord(later).Picked? && !PickRecord(later).migrated
            && Loadable(PickRecord(later).record) && Decoded(PickRecord(later).record) == config
  {
    var config := Decoded(PickRecord(nvs).record);
    MigratedFits(nvs);
    LoadedIsSettled(PickRecord(nvs).record);
    SaveThenLoad(later, config);
    hide PickRecord, Fits, Decoded, Encoded, Kept, Loadable, Validates;
  }

  /** What was loaded may be saved again: it is as valid as before and within the bounds of the record,
      and the save writes the very bytes that were there, from which the same configuration is loaded. */
  lemma LoadedMaySaveAgain(config: AppConfig)
    requires Fits(config) && WellShaped(config.gateOperator.decoder) && Validates(config)
    ensures Fits(Kept(config)) && WellShaped(Kept(config).gateOperator.decoder) && Validates(Kept(config))
    ensures Roomy(config) && Roomy(Kept(config)) && Encoded(Kept(config)) == Encoded(config)
    ensures Loadable(Encoded(config)) && Decoded(Encoded(config)) == Kept(config)
  {
    ValidIsRoomy(config);
    KeptFits(config);
    KeptValidates(config);
    ValidIsRoomy(Kept(config));
    SavingLoadedWritesSameBytes(config);
    DecodedEncoded(config);
    EncodedHead(config);
    hide Encoded, Decoded, Kept, Fits, Roomy, Validates, DecoderFits, Shaped, RecordFits, WellShaped;
  }

  /** What a configuration of schema 1 or 2 becomes: one button, one endpoint, no rules; schema 1 knew
      neither which endpoint its sensor watches nor its stability time; the rest is as it was. */
  lemma LegacyMeans(v2: PersistedV2)
    requires V1Shaped(v2.v1) && v2.v1.adminSaltLength <= 32 && v2.v1.adminVerifierLength <= 64
    ensures Decodable(MigratedV2(v2))
    ensures var (v1, config) := (v2.v1, Decoded(MigratedV2(v2)));
            var operator := config.gateOperator;
            && operator.profile == Sequential && operator.feedbackTopology == SingleFeedback
            && operator.decoder.profile == EndpointPreset
            && operator.decoder.inputCount == operator.decoder.rules.inputCount == operator.decoder.rules.ruleCount == 0
            && operator.step == PulseOutputConfig(v1.relayGpio, LevelOf(v1.relayActiveLevel), v1.relayPulseMs)
            && operator.singleFeedback == FeedbackInputConfig(v1.sensorGpio, LevelOf(v1.sensorActiveLevel),
                                                              PullOf(v1.sensorPull), v1.sensorDebounceMs)
            && (if v1.schemaVersion == 1
                then operator.singleActiveEndpoint == ClosedEndpoint && operator.endpointStabilityMs == 2000
                else && operator.singleActiveEndpoint == EndpointOf(v2.sensorActiveEndpoint)
                     && operator.endpointStabilityMs == v2.sensorEndpointStabilityMs)
            && operator.minimumIntervalMs == v1.relayMinimumIntervalMs
            && config.schemaVersion == SCHEMA_VERSION
            && config.wifi == WifiConfig(ReadString(v1.wifiSsid), ReadString(v1.wifiPassword), v1.connectionDeadlineMs)
            && config.accessPoint == AccessPointConfig(ReadString(v1.apPassword), v1.apShutdownMs)
            && config.homekit == HomeKitConfig(ReadString(v1.displayName), ReadString(v1.setupCode),
                                               ReadString(v1.setupId))
            && config.timing == TimingConfig(v1.openingMs, v1.closingMs, v1.sensorReleaseTimeoutMs)
            && config.admin == AdminConfig(v1.adminSalt[..v1.adminSaltLength],
                                           v1.adminVerifier[..v1.adminVerifierLength], v1.pbkdf2Iterations)
  {
    ZeroRecordsAreShaped();
    hide ReadString, DecodedRule;
  }

  /** A blob of an older generation under a newer key is of the wrong version, one of a newer generation
      under an older key too long to be read; no key is looked at once a newer one exists. */
  lemma MisplacedBlobs(nvs: Nvs)
    ensures nvs.v4.Some? && !nvs.v4.value.BlobV4? && !nvs.v4.value.OtherBlob? ==>
              PickRecord(nvs) == Refused(InvalidVersion)
    ensures nvs.v4.None? && nvs.v3.Some? && nvs.v3.value.BlobV4? ==> PickRecord(nvs) == Refused(InvalidLength)
    ensures nvs.v4.None? && nvs.v3.Some? && (nvs.v3.value.BlobV1? || nvs.v3.value.BlobV2?) ==>
              PickRecord(nvs) == Refused(InvalidVersion)
    ensures nvs.v4.None? && nvs.v3.None? && nvs.v1.Some? && (nvs.v1.value.BlobV3? || nvs.v1.value.BlobV4?) ==>
              PickRecord(nvs) == Refused(InvalidLength)
    ensures nvs.v4.None? && nvs.v3.None? && nvs.v1.None? <==> PickRecord(nvs) == Refused(NotFound)
  {
  }

  // ---- The store ----

  class ConfigRepository {
    var nvs: Nvs
    /** No operation of the NVS library has failed so far. */
    ghost var healthy: bool

    constructor (nvs: Nvs)
      ensures this.nvs == nvs && healthy
    {
      this.nvs, healthy := nvs, true;
    }

    /** An operation of the NVS library succeeds or fails. */
    method Answer() returns (ok: bool)
      modifies this`healthy
      ensures healthy == (old(healthy) && ok)
    {
      ok := *;
      healthy := healthy && ok;
    }

    /** The main record and its decoder part, field by field. */
    method Encode(config: AppConfig) returns (stored: PersistedV4)
      requires DecoderFits(config.gateOperator.decoder)
      requires |config.admin.salt| <= 32 && |config.admin.passwordVerifier| <= 64
      ensures stored == Encoded(config)
    {
      hide EncodedDecoder, DecoderFits, CopyString;
      var operator := config.gateOperator;
      var firstOutput := if operator.profile == Sequential then operator.step else operator.open;
      var firstInput :=
        if operator.feedbackTopology == SingleFeedback then operator.singleFeedback else operator.openedFeedback;
      var v1 := PersistedV1(
        MAGIC, SCHEMA_VERSION, CopyString(33, config.wifi.ssid), CopyString(64, config.wifi.password),
        config.wifi.connectionDeadlineMs, CopyString(64, config.accessPoint.password),
        config.accessPoint.stableStationShutdownMs, CopyString(65, config.homekit.displayName),
        CopyString(9, config.homekit.setupCode), CopyString(5, config.homekit.setupId),
        ToInt8(firstOutput.gpio), LevelCode(firstOutput.activeLevel), firstOutput.pulseMs, operator.minimumIntervalMs,
        ToInt8(firstInput.gpio), LevelCode(firstInput.activeLevel), PullCode(firstInput.pull), firstInput.debounceMs,
        config.timing.openingMs, config.timing.closingMs, config.timing.sensorReleaseTimeoutMs,
        config.admin.salt + Zeros(32 - |config.admin.salt|), |config.admin.salt|,
        config.admin.passwordVerifier + Zeros(64 - |config.admin.passwordVerifier|), |config.admin.passwordVerifier|,
        config.admin.pbkdf2Iterations);
      var v2 := PersistedV2(v1, EndpointCode(operator.singleActiveEndpoint), operator.endpointStabilityMs);
      var v3 := PersistedV3(v2, ProfileCode(operator.profile), TopologyCode(operator.feedbackTopology),
                            EncodedOutput(operator.close), EncodedInput(operator.closedFeedback));
      var decoder := ConfigCodec.EncodeDecoder(operator.decoder);
      stored := PersistedV4(v3, decoder);
    }

    /** Only a valid configuration is stored, and as the record that `Encoded` says. The counts of a
        valid one must lie inside their arrays, or the encoding would read past their ends. */
    method Save(config: AppConfig) returns (status: Status)
      requires nvs.Valid() && WellShaped(config.gateOperator.decoder) && LoopsInBounds(config.gateOperator.decoder)
      requires Validates(config) ==> DecoderFits(config.gateOperator.decoder)
      modifies this
      ensures nvs.Valid()
      ensures status.InvalidArg? <==> !Validates(config)
      ensures status in {Ok, InvalidArg, NvsFailed} && healthy == (old(healthy) && !status.NvsFailed?)
      ensures status.InvalidArg? ==> nvs == old(nvs)
      ensures !status.InvalidArg? ==> Roomy(config) && nvs.v3 == old(nvs).v3 && nvs.v1 == old(nvs).v1
                                      && nvs.v4 in {old(nvs).v4, Some(BlobV4(Encoded(config)))}
      ensures status.Ok? ==> nvs.v4 == Some(BlobV4(Encoded(config)))
    {
      hide Encoded, Validates, DecoderFits, WellShaped, Shaped, RecordFits, LoopsInBounds;
      var errors := ConfigValidator.Validate(config);
      if errors != [] { return InvalidArg; }
      ValidIsRoomy(config);
      EncodedIsShaped(config);
      var stored := Encode(config);
      var written := Answer();
      if !written { return NvsFailed; }
      nvs := nvs.(v4 := Some(BlobV4(stored)));
      var committed := Answer();
      if !committed { return NvsFailed; }
      return Ok;
    }

    lemma FitsIsShaped(decoder: FeedbackDecoderConfig)
      requires DecoderFits(decoder)
      ensures WellShaped(decoder)
    {
    }

    lemma FitCounts(decoder: FeedbackDecoderConfig)
      requires DecoderFits(decoder)
      ensures LoopsInBounds(decoder)
    {
    }

    /** A record's configuration, or the reason why it holds none. */
    method Decode(record: PersistedV4) returns (status: Status, config: Option<AppConfig>)
      requires Shaped(record)
      ensures status.Ok? <==> config.Some?
      ensures status in {Ok, InvalidSize} && (status.Ok? <==> Decodable(record))
      ensures status.Ok? ==> config.value == Decoded(record) && DecoderFits(config.value.gateOperator.decoder)
    {
      hide DecodedDecoder, RecordFits, DecoderRecordShaped, ReadString, DecoderFits;
      var (v3, v2, v1) := (record.v3, record.v3.commonAndSlotA, record.v3.commonAndSlotA.v1);
      var (profile, topology) := (ProfileOf(v3.operatorProfile), TopologyOf(v3.feedbackTopology));
      var step, open, singleInput, openedInput := DEFAULT_OUTPUT, DEFAULT_OUTPUT, DEFAULT_INPUT, DEFAULT_INPUT;
      var firstOutput := PulseOutputConfig(v1.relayGpio, LevelOf(v1.relayActiveLevel), v1.relayPulseMs);
      if profile == Sequential { step := firstOutput; } else { open := firstOutput; }
      var firstInput := FeedbackInputConfig(v1.sensorGpio, LevelOf(v1.sensorActiveLevel), PullOf(v1.sensorPull),
                                            v1.sensorDebounceMs);
      if topology == SingleFeedback { singleInput := firstInput; } else { openedInput := firstInput; }
      var decoder := ConfigCodec.DecodeDecoder(record.decoder);
      if decoder.None? { return InvalidSize, None; }
      if v1.adminSaltLength > 32 || v1.adminVerifierLength > 64 { return InvalidSize, None; }
      LoadedIsSettled(record);
      var operator := OperatorConfig(
        profile, step, open, DecodedOutput(v3.secondOutput), v1.relayMinimumIntervalMs, topology,
        EndpointOf(v2.sensorActiveEndpoint), singleInput, openedInput, DecodedInput(v3.secondFeedback),
        v2.sensorEndpointStabilityMs,
        decoder.value);
      var loaded := AppConfig(
        SCHEMA_VERSION,
        WifiConfig(ReadString(v1.wifiSsid), ReadString(v1.wifiPassword), v1.connectionDeadlineMs),
        AccessPointConfig(ReadString(v1.apPassword), v1.apShutdownMs),
        HomeKitConfig(ReadString(v1.displayName), ReadString(v1.setupCode), ReadString(v1.setupId)),
        operator,
        TimingConfig(v1.openingMs, v1.closingMs, v1.sensorReleaseTimeoutMs),
        AdminConfig(v1.adminSalt[..v1.adminSaltLength], v1.adminVerifier[..v1.adminVerifierLength],
                    v1.pbkdf2Iterations));
      return Ok, Some(loaded);
    }

    /** A blob is read into a buffer; one that is too large for it is not read at all. */
    method GetBlob(key: Option<Blob>, buffer: nat) returns (status: Status)
      ensures status.NotFound? <==> key.None?
      ensures status.InvalidLength? <==> key.Some? && Size(key.value) > buffer
      ensures status in {Ok, NotFound, InvalidLength}
    {
      if key.None? { return NotFound; }
      if Size(key.value) > buffer { return InvalidLength; }
      return Ok;
    }

    /** The first part of loading: the keys in order, and what older schemas lack. */
    method ReadStored() returns (status: Status, stored: PersistedV4, migrated: bool)
      requires nvs.Valid()
      ensures PickRecord(nvs) == if status.Ok? then Picked(stored, migrated) else Refused(status)
      ensures status in {Ok, NotFound, InvalidLength, InvalidVersion}
    {
      stored, migrated := PersistedV4(PersistedV3(ZERO_V2, 0, 0, ZERO_OUTPUT, ZERO_INPUT), Preset()), false;
      var current := false;
      status := GetBlob(nvs.v4, SIZE_V4);
      if status.Ok? && Size(nvs.v4.value) == SIZE_V4 {
        stored, current := nvs.v4.value.v4, true;
      } else if status.NotFound? {
        status := GetBlob(nvs.v3, SIZE_V3);
        if status.Ok? && Size(nvs.v3.value) == SIZE_V3 {
          var v3 := nvs.v3.value.v3;
          if v3.commonAndSlotA.v1.magic == MAGIC && v3.commonAndSlotA.v1.schemaVersion == 3 {
            var v1 := v3.commonAndSlotA.v1.(schemaVersion := SCHEMA_VERSION);
            stored := PersistedV4(v3.(commonAndSlotA := v3.commonAndSlotA.(v1 := v1)), EmptyDecoder(EndpointPreset));
            migrated, current := true, true;
          }
        } else if status.NotFound? {
          var legacy := ZERO_V2;
          status := GetBlob(nvs.v1, SIZE_V2);
          if status.Ok? && (Size(nvs.v1.value) == SIZE_V1 || Size(nvs.v1.value) == SIZE_V2) {
            legacy := if Size(nvs.v1.value) == SIZE_V1 then legacy.(v1 := nvs.v1.value.v1) else nvs.v1.value.v2;
            if legacy.v1.magic == MAGIC && (legacy.v1.schemaVersion == 1 || legacy.v1.schemaVersion == 2) {
              var version := legacy.v1.schemaVersion;
              legacy := legacy.(v1 := legacy.v1.(schemaVersion := SCHEMA_VERSION));
              if version == 1 {
                legacy := legacy.(sensorActiveEndpoint := EndpointCode(ClosedEndpoint));
                legacy := legacy.(sensorEndpointStabilityMs := 2000);
              }
              stored := PersistedV4(
                PersistedV3(legacy, ProfileCode(Sequential), TopologyCode(SingleFeedback), ZERO_OUTPUT, ZERO_INPUT),
                EmptyDecoder(EndpointPreset));
              migrated, current := true, true;
            }
          }
        }
      }
      if !status.Ok? { return; }
      if !current || stored.v3.commonAndSlotA.v1.magic != MAGIC
         || stored.v3.commonAndSlotA.v1.schemaVersion != SCHEMA_VERSION {
        status := InvalidVersion;
      }
    }

    /** Loads the configuration of the newest key. One of an older schema is stored under the
        current one before it is handed out. */
    method Load() returns (status: Status, config: Option<AppConfig>)
      requires nvs.Valid()
      modifies this
      ensures nvs.Valid() && (status.Ok? <==> config.Some?)
      ensures healthy == (old(healthy) && !status.NvsFailed?)
      ensures PickRecord(old(nvs)).Picked? && Loadable(PickRecord(old(nvs)).record) ==> status in {Ok, NvsFailed}
      ensures status.Ok? ==> PickRecord(old(nvs)).Picked? && Loadable(PickRecord(old(nvs)).record)
                             && config.value == Decoded(PickRecord(old(nvs)).record)
      ensures status.Ok? ==> if PickRecord(old(nvs)).migrated
                             then Fits(config.value) && Roomy(config.value)
                                 && nvs.v4 == Some(BlobV4(Encoded(config.value)))
                             else nvs == old(nvs)
      ensures PickRecord(old(nvs)).Refused? ==> status in {PickRecord(old(nvs)).status, NvsFailed} && nvs == old(nvs)
      ensures PickRecord(old(nvs)).Picked? && !Loadable(PickRecord(old(nvs)).record) ==>
                && status in {if Decodable(PickRecord(old(nvs)).record) then InvalidState else InvalidSize, NvsFailed}
                && nvs == old(nvs)
    {
      hide PickRecord, Decoded, Encoded, Validates, DecoderFits, RecordFits, Fits, Roomy;
      var ready := Answer();
      if !ready { return NvsFailed, None; }
      var stored, migrated;
      status, stored, migrated := ReadStored();
      if !status.Ok? { return status, None; }
      PickedIsShaped(nvs);
      var loaded;
      status, loaded := Decode(stored);
      if !status.Ok? { return status, None; }
      FitsIsShaped(loaded.value.gateOperator.decoder);
      FitCounts(loaded.value.gateOperator.decoder);
      var errors := ConfigValidator.Validate(loaded.value);
      if errors != [] { return InvalidState, None; }
      if migrated {
        MigratedFits(nvs);
        status := Save(loaded.value);
        if !status.Ok? { return status, None; }
      }
      return Ok, loaded;
    }
  }
}

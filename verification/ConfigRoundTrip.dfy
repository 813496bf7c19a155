/** Storing a configuration and loading it again. */
module ConfigRoundTrip {
  import opened Ticks
  import opened DecoderModel
  import opened AppConfigModel
  import opened AppConfigValidation
  import opened DecoderCompiler
  import opened PersistedConfig

  // ---- Strings ----

  lemma {:induction false} ReadWithTail(text: Bytes, tail: Bytes)
    requires NulFree(text) && |tail| > 0 && tail[0] == 0
    ensures ReadString(text + tail) == text
  {
    if text != [] {
      assert (text + tail)[1..] == text[1..] + tail;
      ReadWithTail(text[1..], tail);
    } else {
      assert text + tail == tail;
    }
  }

  /** A string without zero bytes that leaves room for one survives. */
  lemma ReadCopied(size: nat, text: Bytes)
    requires |text| < size && NulFree(text)
    ensures ReadString(CopyString(size, text)) == text
  {
    ReadWithTail(text, Zeros(size - |text|));
  }

  // ---- Which configurations fit the record ----

  predicate CanonicalInput(input: FeedbackInputConfig) {
    && (input.activeLevel.OtherLevel? ==> input.activeLevel.code >= 2)
    && (input.pull.OtherPull? ==> input.pull.code >= 3)
    && -128 <= input.gpio < 128
  }

  predicate CanonicalOutput(output: PulseOutputConfig) {
    (output.activeLevel.OtherLevel? ==> output.activeLevel.code >= 2) && -128 <= output.gpio < 128
  }

  predicate CanonicalRule(rule: RuleConfig) {
    && (rule.output.kind.OtherOutput? ==> rule.output.kind.code >= 3)
    && (rule.output.position.OtherPosition? ==> rule.output.position.code >= 2)
    && (rule.output.movement.OtherMovement? ==> rule.output.movement.code >= 3)
    && (rule.output.fault.OtherFault? ==> rule.output.fault.code >= 1)
    && (rule.movement.expiry.OtherExpiry? ==> rule.movement.expiry.code >= 4)
  }

  ghost predicate CanonicalGroup(group: PredicateGroupConfig) {
    forall p | 0 <= p < group.predicateCount && p < |group.predicates| ::
      group.predicates[p].kind.OtherPredicate? ==> group.predicates[p].kind.code >= 2
  }

  predicate TextFits(text: Bytes) {
    |text| < LABEL_SIZE && NulFree(text)
  }

  /** Every used slot holds what its record can: labels of at most 32 bytes without zeros, pins
      within a signed byte, and enumeration bytes in their one spelling. */
  ghost predicate SlotsFit(decoder: FeedbackDecoderConfig)
    requires DecoderFits(decoder)
  {
    && (decoder.profile.OtherDecoder? ==> decoder.profile.code >= 2)
    && (forall i | 0 <= i < decoder.inputCount ::
          TextFits(decoder.inputs[i].inputLabel) && CanonicalInput(decoder.inputs[i].electrical))
    && (forall r | 0 <= r < decoder.rules.ruleCount ::
          && TextFits(decoder.ruleLabels[r]) && CanonicalRule(decoder.rules.rules[r])
          && forall g | 0 <= g < decoder.rules.rules[r].groupCount :: CanonicalGroup(decoder.rules.rules[r].groups[g]))
  }

  ghost predicate Fits(config: AppConfig) {
    var operator := config.gateOperator;
    && DecoderFits(operator.decoder) && SlotsFit(operator.decoder)
    && NulFree(config.wifi.ssid) && NulFree(config.wifi.password) && NulFree(config.accessPoint.password)
    && NulFree(config.homekit.displayName)
    && (operator.singleActiveEndpoint.OtherEndpoint? ==> operator.singleActiveEndpoint.code >= 2)
    && (operator.profile.OtherProfile? ==> operator.profile.code >= 2)
    && (operator.feedbackTopology.OtherTopology? ==> operator.feedbackTopology.code >= 2)
    && CanonicalOutput(FirstOutput(operator)) && CanonicalOutput(operator.close)
    && CanonicalInput(FirstInput(operator)) && CanonicalInput(operator.closedFeedback)
  }

  // ---- What survives ----

  ghost function KeptGroup(group: PredicateGroupConfig): PredicateGroupConfig
    requires GroupFits(group)
  {
    group.(predicates := seq(MAX_PREDICATES_PER_GROUP, p requires 0 <= p < MAX_PREDICATES_PER_GROUP =>
      if p < group.predicateCount then group.predicates[p] else DEFAULT_PREDICATE))
  }

  ghost function KeptRule(rule: RuleConfig): RuleConfig
    requires RuleFits(rule)
  {
    rule.(groups := seq(MAX_GROUPS_PER_RULE, g requires 0 <= g < MAX_GROUPS_PER_RULE =>
      if g < rule.groupCount then KeptGroup(rule.groups[g]) else DEFAULT_GROUP))
  }

  ghost function KeptRules(rules: DecoderConfig): DecoderConfig
    requires rules.WellShaped() && rules.inputCount <= MAX_INPUTS && rules.ruleCount <= MAX_RULES
    requires forall r | 0 <= r < rules.ruleCount :: RuleFits(rules.rules[r])
  {
    rules.(inputIds := seq(MAX_INPUTS, i requires 0 <= i < MAX_INPUTS =>
                             if i < rules.inputCount then rules.inputIds[i] else 0),
           rules := seq(MAX_RULES, r requires 0 <= r < MAX_RULES =>
             if r < rules.ruleCount then KeptRule(rules.rules[r]) else DEFAULT_RULE))
  }

  /** Slots beyond the counts are reset. */
  ghost function KeptDecoder(decoder: FeedbackDecoderConfig): FeedbackDecoderConfig
    requires DecoderFits(decoder)
  {
    decoder.(
      inputs := seq(MAX_INPUTS, i requires 0 <= i < MAX_INPUTS =>
        if i < decoder.inputCount then decoder.inputs[i] else DEFAULT_DECODER_INPUT),
      rules := KeptRules(decoder.rules),
      ruleLabels := seq(MAX_RULES, r requires 0 <= r < MAX_RULES =>
        if r < decoder.rules.ruleCount then decoder.ruleLabels[r] else []))
  }

  /** The configuration that comes back: the output of the other profile, the input of the other
      topology and unused slots are reset, and nothing else. */
  ghost function Kept(config: AppConfig): AppConfig
    requires DecoderFits(config.gateOperator.decoder)
  {
    var operator := config.gateOperator;
    config.(gateOperator := operator.(
      step := if operator.profile.Sequential? then operator.step else DEFAULT_OUTPUT,
      open := if operator.profile.Sequential? then DEFAULT_OUTPUT else operator.open,
      singleFeedback := if operator.feedbackTopology.SingleFeedback? then operator.singleFeedback else DEFAULT_INPUT,
      openedFeedback := if operator.feedbackTopology.SingleFeedback? then DEFAULT_INPUT else operator.openedFeedback,
      decoder := KeptDecoder(operator.decoder)))
  }

  // ---- Decoding undoes encoding ----

  lemma InputSurvives(input: FeedbackInputConfig)
    requires CanonicalInput(input)
    ensures DecodedInput(EncodedInput(input)) == input
  {
  }

  lemma GroupSurvives(group: PredicateGroupConfig)
    requires GroupFits(group) && CanonicalGroup(group)
    ensures RecordGroupFits(EncodedGroup(group)) && DecodedGroup(EncodedGroup(group)) == KeptGroup(group)
  {
    forall p | 0 <= p < group.predicateCount
      ensures DecodedPredicate(EncodedPredicate(group.predicates[p])) == group.predicates[p]
    {
    }
    assert DecodedGroup(EncodedGroup(group)).predicates == KeptGroup(group).predicates;
  }

  lemma RuleSurvives(rule: RuleConfig, text: Bytes)
    requires RuleFits(rule) && CanonicalRule(rule) && TextFits(text)
    requires forall g | 0 <= g < rule.groupCount :: CanonicalGroup(rule.groups[g])
    ensures RecordRuleFits(EncodedRule(rule, text)) && DecodedRule(EncodedRule(rule, text)) == KeptRule(rule)
    ensures ReadString(EncodedRule(rule, text).ruleLabel) == text
  {
    hide EncodedGroup, DecodedGroup, KeptGroup, CanonicalGroup, CopyString, ReadString;
    ReadCopied(LABEL_SIZE, text);
    var record := EncodedRule(rule, text);
    GroupRecordsFit(rule, text);
    forall g | 0 <= g < rule.groupCount
      ensures DecodedGroup(record.groups[g]) == KeptGroup(rule.groups[g])
    {
      GroupSurvives(rule.groups[g]);
    }
    assert DecodedRule(record).groups == KeptRule(rule).groups;
  }

  lemma GroupRecordsFit(rule: RuleConfig, text: Bytes)
    requires RuleFits(rule)
    ensures RecordRuleFits(EncodedRule(rule, text))
  {
    hide CopyString;
  }

  lemma DecoderRecordFits(decoder: FeedbackDecoderConfig)
    requires DecoderFits(decoder)
    ensures RecordFits(EncodedDecoder(decoder))
  {
    ZeroRecordsAreShaped();
    hide EncodedRule, RecordRuleFits, RuleRecordShaped, RuleFits, CopyString, EncodedDecoderInput;
    var record := EncodedDecoder(decoder);
    forall r | 0 <= r < MAX_RULES
      ensures RuleRecordShaped(record.rules[r]) && (r < decoder.rules.ruleCount ==> RecordRuleFits(record.rules[r]))
    {
      if r < decoder.rules.ruleCount {
        GroupRecordsFit(decoder.rules.rules[r], decoder.ruleLabels[r]);
        FittingIsShaped(record.rules[r]);
      }
    }
    forall i | 0 <= i < MAX_INPUTS
      ensures |record.inputs[i].inputLabel| == LABEL_SIZE
    {
      if i < decoder.inputCount {
        LabelIsSized(decoder.inputs[i]);
      }
    }
  }

  lemma ZeroRecordsAreShaped()
    ensures RuleRecordShaped(ZERO_RULE) && |ZERO_DECODER_INPUT.inputLabel| == LABEL_SIZE
  {
  }

  lemma FittingIsShaped(rule: PersistedRule)
    requires RecordRuleFits(rule)
    ensures RuleRecordShaped(rule)
  {
  }

  lemma LabelIsSized(input: DecoderInputConfig)
    ensures |EncodedDecoderInput(input).inputLabel| == LABEL_SIZE
  {
  }

  lemma DecoderInputSurvives(input: DecoderInputConfig)
    requires TextFits(input.inputLabel) && CanonicalInput(input.electrical)
    ensures DecodedDecoderInput(EncodedDecoderInput(input)) == input
  {
    ReadCopied(LABEL_SIZE, input.inputLabel);
    InputSurvives(input.electrical);
  }

  lemma DecoderSurvives(decoder: FeedbackDecoderConfig)
    requires DecoderFits(decoder) && SlotsFit(decoder)
    ensures RecordFits(EncodedDecoder(decoder))
    ensures DecodedDecoder(EncodedDecoder(decoder)) == KeptDecoder(decoder)
  {
    DecoderRecordFits(decoder);
    hide EncodedRule, DecodedRule, KeptRule, RecordRuleFits, RuleFits, CanonicalRule, CanonicalGroup,
      DecoderRecordShaped, EncodedDecoderInput, DecodedDecoderInput, CopyString, ReadString;
    var record := EncodedDecoder(decoder);
    forall i | 0 <= i < decoder.inputCount
      ensures DecodedDecoderInput(record.inputs[i]) == decoder.inputs[i]
    {
      DecoderInputSurvives(decoder.inputs[i]);
    }
    forall r | 0 <= r < decoder.rules.ruleCount
      ensures DecodedRule(record.rules[r]) == KeptRule(decoder.rules.rules[r])
              && ReadString(record.rules[r].ruleLabel) == decoder.ruleLabels[r]
    {
      RuleSurvives(decoder.rules.rules[r], decoder.ruleLabels[r]);
    }
    var (back, kept) := (DecodedDecoder(record), KeptDecoder(decoder));
    assert back.inputs == kept.inputs;
    assert back.rules.inputIds == kept.rules.inputIds;
    assert back.rules.rules == kept.rules.rules;
    assert back.ruleLabels == kept.ruleLabels;
  }

  /** The strings and blobs that validation bounds leave room in their fields. */
  ghost predicate Roomy(config: AppConfig) {
    && |config.wifi.ssid| <= 32 && |config.wifi.password| <= 63 && |config.accessPoint.password| <= 63
    && |config.homekit.displayName| <= 64
    && |config.homekit.setupCode| <= 8 && NulFree(config.homekit.setupCode)
    && |config.homekit.setupId| <= 4 && NulFree(config.homekit.setupId)
    && |config.admin.salt| <= 32 && |config.admin.passwordVerifier| <= 64
    && config.schemaVersion == SCHEMA_VERSION
  }

  lemma ValidIsRoomy(config: AppConfig)
    requires WellShaped(config.gateOperator.decoder) && Validates(config)
    ensures Roomy(config)
  {
    hide ActuatorsOk, FeedbackOk, InputOk, PinsDistinct;
  }

  lemma EncodedIsShaped(config: AppConfig)
    requires DecoderFits(config.gateOperator.decoder) && Roomy(config)
    ensures Shaped(Encoded(config)) && RecordFits(Encoded(config).decoder)
  {
    hide DecoderFits, EncodedDecoder, RecordFits, CopyString;
    DecoderRecordFits(config.gateOperator.decoder);
    FitRecordIsShaped(EncodedDecoder(config.gateOperator.decoder));
  }

  lemma FitRecordIsShaped(d: PersistedDecoder)
    requires RecordFits(d)
    ensures DecoderRecordShaped(d)
  {
  }

  /** Loading what was stored gives the configuration back, but for what the record has no place for. */
  lemma DecodedEncoded(config: AppConfig)
    requires Fits(config) && Roomy(config)
    ensures Shaped(Encoded(config)) && RecordFits(Encoded(config).decoder)
    ensures Decoded(Encoded(config)) == Kept(config)
  {
    EncodedIsShaped(config);
    DecoderSurvives(config.gateOperator.decoder);
    hide Encoded, Decoded, Kept, EncodedDecoder, DecodedDecoder, KeptDecoder, RecordFits, DecoderFits, SlotsFit, Shaped,
      Fits;
    OperatorSurvives(config);
    RestSurvives(config);
  }

  lemma OperatorSurvives(config: AppConfig)
    requires Fits(config) && Roomy(config)
    requires Shaped(Encoded(config)) && RecordFits(Encoded(config).decoder)
    requires DecodedDecoder(Encoded(config).decoder) == KeptDecoder(config.gateOperator.decoder)
    ensures Decoded(Encoded(config)).gateOperator == Kept(config).gateOperator
  {
    hide EncodedDecoder, DecodedDecoder, KeptDecoder, RecordFits, DecoderFits, SlotsFit, CopyString, ReadString, Shaped,
      NulFree;
    InputSurvives(FirstInput(config.gateOperator));
    InputSurvives(config.gateOperator.closedFeedback);
  }

  lemma RestSurvives(config: AppConfig)
    requires Fits(config) && Roomy(config)
    requires Shaped(Encoded(config)) && RecordFits(Encoded(config).decoder)
    ensures Decoded(Encoded(config)).(gateOperator := Kept(config).gateOperator) == Kept(config)
  {
    StringsSurvive(config);
    hide EncodedDecoder, DecodedDecoder, KeptDecoder, RecordFits, DecoderFits, SlotsFit, CopyString, ReadString, Shaped,
      NulFree, EncodedInput, EncodedOutput, DecodedInput, DecodedOutput, CanonicalInput, CanonicalOutput;
    assert Decoded(Encoded(config)).admin == config.admin;
  }

  lemma StringsSurvive(config: AppConfig)
    requires Fits(config) && Roomy(config)
    ensures ReadString(CopyString(33, config.wifi.ssid)) == config.wifi.ssid
    ensures ReadString(CopyString(64, config.wifi.password)) == config.wifi.password
    ensures ReadString(CopyString(64, config.accessPoint.password)) == config.accessPoint.password
    ensures ReadString(CopyString(65, config.homekit.displayName)) == config.homekit.displayName
    ensures ReadString(CopyString(9, config.homekit.setupCode)) == config.homekit.setupCode
    ensures ReadString(CopyString(5, config.homekit.setupId)) == config.homekit.setupId
  {
    hide ReadString, CopyString, NulFree, DecoderFits, SlotsFit;
    ReadCopied(33, config.wifi.ssid);
    ReadCopied(64, config.wifi.password);
    ReadCopied(64, config.accessPoint.password);
    ReadCopied(65, config.homekit.displayName);
    ReadCopied(9, config.homekit.setupCode);
    ReadCopied(5, config.homekit.setupId);
  }

  // ---- What survives is as good as what was stored ----

  lemma KeptRuleFits(rule: RuleConfig)
    requires RuleFits(rule)
    ensures RuleFits(KeptRule(rule)) && KeptRule(KeptRule(rule)) == KeptRule(rule)
  {
    var kept := KeptRule(rule);
    forall g | 0 <= g < rule.groupCount
      ensures GroupFits(kept.groups[g]) && KeptGroup(kept.groups[g]) == kept.groups[g]
    {
    }
    assert KeptRule(kept).groups == kept.groups;
  }

  lemma KeptDecoderFits(decoder: FeedbackDecoderConfig)
    requires DecoderFits(decoder)
    ensures DecoderFits(KeptDecoder(decoder)) && KeptDecoder(KeptDecoder(decoder)) == KeptDecoder(decoder)
  {
    DefaultRuleIsShaped();
    hide RuleFits, KeptRule, RuleShaped;
    var kept := KeptDecoder(decoder);
    forall r | 0 <= r < MAX_RULES
      ensures RuleShaped(kept.rules.rules[r])
      ensures r < kept.rules.ruleCount ==>
                RuleFits(kept.rules.rules[r]) && KeptRule(kept.rules.rules[r]) == kept.rules.rules[r]
    {
      if r < kept.rules.ruleCount {
        KeptRuleFits(decoder.rules.rules[r]);
        FittingRuleIsShaped(kept.rules.rules[r]);
      }
    }
    var again := KeptDecoder(kept);
    assert again.inputs == kept.inputs && again.ruleLabels == kept.ruleLabels;
    assert again.rules.inputIds == kept.rules.inputIds && again.rules.rules == kept.rules.rules;
  }

  lemma DefaultRuleIsShaped()
    ensures RuleShaped(DEFAULT_RULE)
  {
  }

  lemma FittingRuleIsShaped(rule: RuleConfig)
    requires RuleFits(rule)
    ensures RuleShaped(rule)
  {
  }

  lemma RuleStoredAlike(rule: RuleConfig, text: Bytes)
    requires RuleFits(rule)
    ensures RuleFits(KeptRule(rule)) && EncodedRule(KeptRule(rule), text) == EncodedRule(rule, text)
  {
    KeptRuleFits(rule);
    hide CopyString, EncodedPredicate;
    var kept := KeptRule(rule);
    forall g | 0 <= g < rule.groupCount
      ensures EncodedGroup(kept.groups[g]) == EncodedGroup(rule.groups[g])
    {
      assert EncodedGroup(kept.groups[g]).predicates == EncodedGroup(rule.groups[g]).predicates;
    }
    assert EncodedRule(kept, text).groups == EncodedRule(rule, text).groups;
  }

  lemma DecoderStoredAlike(decoder: FeedbackDecoderConfig)
    requires DecoderFits(decoder)
    ensures DecoderFits(KeptDecoder(decoder)) && EncodedDecoder(KeptDecoder(decoder)) == EncodedDecoder(decoder)
  {
    KeptDecoderFits(decoder);
    hide RuleFits, KeptRule, EncodedRule, EncodedDecoderInput, RuleShaped;
    var kept := KeptDecoder(decoder);
    forall r | 0 <= r < decoder.rules.ruleCount
      ensures RuleFits(kept.rules.rules[r])
      ensures EncodedRule(kept.rules.rules[r], kept.ruleLabels[r])
                == EncodedRule(decoder.rules.rules[r], decoder.ruleLabels[r])
    {
      RuleStoredAlike(decoder.rules.rules[r], decoder.ruleLabels[r]);
    }
    var (one, two) := (EncodedDecoder(kept), EncodedDecoder(decoder));
    assert one.inputs == two.inputs && one.ruleInputIds == two.ruleInputIds && one.rules == two.rules;
  }

  /** Saving what was loaded writes the very bytes that were there. */
  lemma SavingLoadedWritesSameBytes(config: AppConfig)
    requires DecoderFits(config.gateOperator.decoder) && Roomy(config)
    ensures DecoderFits(Kept(config).gateOperator.decoder) && Encoded(Kept(config)) == Encoded(config)
    ensures Kept(Kept(config)) == Kept(config)
  {
    DecoderStoredAlike(config.gateOperator.decoder);
    KeptDecoderFits(config.gateOperator.decoder);
    hide DecoderFits, KeptDecoder, EncodedDecoder, CopyString;
  }

  lemma KeptSlotsFit(decoder: FeedbackDecoderConfig)
    requires DecoderFits(decoder) && SlotsFit(decoder)
    ensures DecoderFits(KeptDecoder(decoder)) && SlotsFit(KeptDecoder(decoder))
  {
    KeptDecoderFits(decoder);
    hide TextFits, CanonicalInput, RuleFits, RuleShaped;
    var kept := KeptDecoder(decoder);
    forall r | 0 <= r < kept.rules.ruleCount
      ensures CanonicalRule(kept.rules.rules[r])
      ensures forall g | 0 <= g < kept.rules.rules[r].groupCount :: CanonicalGroup(kept.rules.rules[r].groups[g])
    {
      KeptRuleIsCanonical(decoder.rules.rules[r]);
    }
  }

  lemma KeptRuleIsCanonical(rule: RuleConfig)
    requires RuleFits(rule) && CanonicalRule(rule)
    requires forall g | 0 <= g < rule.groupCount :: CanonicalGroup(rule.groups[g])
    ensures var kept := KeptRule(rule);
            && |kept.groups| == MAX_GROUPS_PER_RULE && CanonicalRule(kept)
            && forall g | 0 <= g < kept.groupCount :: CanonicalGroup(kept.groups[g])
  {
    forall g | 0 <= g < rule.groupCount
      ensures CanonicalGroup(KeptRule(rule).groups[g])
    {
      assert CanonicalGroup(rule.groups[g]);
    }
  }

  lemma KeptFits(config: AppConfig)
    requires Fits(config)
    ensures Fits(Kept(config))
  {
    KeptSlotsFit(config.gateOperator.decoder);
    hide DecoderFits, SlotsFit, KeptDecoder, CanonicalInput, CanonicalOutput, NulFree;
  }

  // ---- Whatever is loaded fits ----

  lemma DecodedRuleFits(rule: PersistedRule)
    requires RecordRuleFits(rule)
    ensures var decoded := DecodedRule(rule);
            && RuleFits(decoded) && KeptRule(decoded) == decoded && CanonicalRule(decoded)
            && decoded.groupCount <= |decoded.groups|
            && forall g | 0 <= g < decoded.groupCount :: CanonicalGroup(decoded.groups[g])
  {
    var decoded := DecodedRule(rule);
    forall g | 0 <= g < rule.groupCount
      ensures GroupFits(decoded.groups[g]) && CanonicalGroup(decoded.groups[g])
      ensures KeptGroup(decoded.groups[g]) == decoded.groups[g]
    {
      assert KeptGroup(decoded.groups[g]).predicates == decoded.groups[g].predicates;
    }
    assert KeptRule(decoded).groups == decoded.groups;
  }

  /** Labels that end within their field; validation sees to it only for a decoder in use. */
  ghost predicate LabelsEnd(decoder: FeedbackDecoderConfig)
    requires DecoderFits(decoder)
  {
    && (forall i | 0 <= i < decoder.inputCount :: |decoder.inputs[i].inputLabel| < LABEL_SIZE)
    && (forall r | 0 <= r < decoder.rules.ruleCount :: |decoder.ruleLabels[r]| < LABEL_SIZE)
  }

  lemma DecodedDecoderFits(d: PersistedDecoder)
    requires RecordFits(d)
    ensures var decoded := DecodedDecoder(d);
            DecoderFits(decoded) && KeptDecoder(decoded) == decoded && (LabelsEnd(decoded) ==> SlotsFit(decoded))
  {
    DefaultRuleIsShaped();
    hide RuleFits, KeptRule, DecodedRule, RecordRuleFits, RuleShaped, ReadString;
    var decoded := DecodedDecoder(d);
    forall r | 0 <= r < MAX_RULES
      ensures RuleShaped(decoded.rules.rules[r])
      ensures r < d.ruleCount ==>
                RuleFits(decoded.rules.rules[r]) && KeptRule(decoded.rules.rules[r]) == decoded.rules.rules[r]
                                  && CanonicalRule(decoded.rules.rules[r])
                                  && decoded.rules.rules[r].groupCount <= |decoded.rules.rules[r].groups|
                                  && forall g | 0 <= g < decoded.rules.rules[r].groupCount ::
                                       CanonicalGroup(decoded.rules.rules[r].groups[g])
    {
      if r < d.ruleCount {
        DecodedRuleFits(d.rules[r]);
        FittingRuleIsShaped(DecodedRule(d.rules[r]));
      }
    }
    var kept := KeptDecoder(decoded);
    assert kept.inputs == decoded.inputs && kept.ruleLabels == decoded.ruleLabels;
    assert kept.rules.inputIds == decoded.rules.inputIds && kept.rules.rules == decoded.rules.rules;
  }

  /** A configuration read from any record, of this or an older version, already is what a further
      store and load would leave of it. */
  lemma LoadedIsSettled(p: PersistedV4)
    requires Shaped(p) && RecordFits(p.decoder)
    requires p.v3.commonAndSlotA.v1.adminSaltLength <= 32 && p.v3.commonAndSlotA.v1.adminVerifierLength <= 64
    ensures var config := Decoded(p);
            && DecoderFits(config.gateOperator.decoder) && Kept(config) == config
            && (LabelsEnd(config.gateOperator.decoder) ==> Fits(config))
  {
    DecodedDecoderFits(p.decoder);
    hide DecoderFits, KeptDecoder, DecodedDecoder, SlotsFit, LabelsEnd, RecordFits, ReadString, NulFree;
  }

  // ---- The condition is exact ----

  lemma {:induction false} ReadStops(stored: Bytes, k: nat)
    requires k < |stored| && stored[k] == 0
    ensures |ReadString(stored)| <= k
  {
    if k > 0 && stored[0] != 0 {
      ReadStops(stored[1..], k - 1);
    }
  }

  lemma CopiedEnds(size: nat, text: Bytes)
    requires size > 0
    ensures |ReadString(CopyString(size, text))| < size
  {
    ReadStops(CopyString(size, text), size - 1);
  }

  lemma EncodedLabelsEnd(decoder: FeedbackDecoderConfig)
    requires DecoderFits(decoder)
    ensures RecordFits(EncodedDecoder(decoder)) && DecoderFits(DecodedDecoder(EncodedDecoder(decoder)))
    ensures LabelsEnd(DecodedDecoder(EncodedDecoder(decoder)))
  {
    DecoderRecordFits(decoder);
    var record := EncodedDecoder(decoder);
    DecodedDecoderFits(record);
    hide RuleFits, RecordRuleFits, DecodedRule, CopyString, ReadString, DecoderRecordShaped;
    forall i | 0 <= i < decoder.inputCount
      ensures |ReadString(record.inputs[i].inputLabel)| < LABEL_SIZE
    {
      CopiedEnds(LABEL_SIZE, decoder.inputs[i].inputLabel);
    }
    forall r | 0 <= r < decoder.rules.ruleCount
      ensures |ReadString(record.rules[r].ruleLabel)| < LABEL_SIZE
    {
      CopiedEnds(LABEL_SIZE, decoder.ruleLabels[r]);
    }
  }

  lemma CanonicalBeforeReset(rule: RuleConfig)
    requires RuleFits(rule)
    requires var kept := KeptRule(rule);
             CanonicalRule(kept) && forall g | 0 <= g < kept.groupCount :: CanonicalGroup(kept.groups[g])
    ensures CanonicalRule(rule) && forall g | 0 <= g < rule.groupCount :: CanonicalGroup(rule.groups[g])
  {
    var kept := KeptRule(rule);
    forall g | 0 <= g < rule.groupCount
      ensures CanonicalGroup(rule.groups[g])
    {
      assert CanonicalGroup(kept.groups[g]);
      forall p | 0 <= p < rule.groups[g].predicateCount
        ensures rule.groups[g].predicates[p] == kept.groups[g].predicates[p]
      {
      }
    }
  }

  lemma SlotsFitBeforeReset(decoder: FeedbackDecoderConfig)
    requires DecoderFits(decoder) && DecoderFits(KeptDecoder(decoder)) && SlotsFit(KeptDecoder(decoder))
    ensures SlotsFit(decoder)
  {
    hide TextFits, CanonicalInput, RuleFits, RuleShaped, CanonicalGroup, CanonicalRule, KeptRule;
    var kept := KeptDecoder(decoder);
    forall i | 0 <= i < decoder.inputCount
      ensures TextFits(decoder.inputs[i].inputLabel) && CanonicalInput(decoder.inputs[i].electrical)
    {
      assert kept.inputs[i] == decoder.inputs[i];
    }
    forall r | 0 <= r < decoder.rules.ruleCount
      ensures TextFits(decoder.ruleLabels[r]) && CanonicalRule(decoder.rules.rules[r])
      ensures RuleFits(decoder.rules.rules[r]) && GroupsCanonical(decoder.rules.rules[r])
    {
      assert kept.ruleLabels[r] == decoder.ruleLabels[r] && kept.rules.rules[r] == KeptRule(decoder.rules.rules[r]);
      GroupsInRange(decoder.rules.rules[r]);
      CanonicalBeforeReset(decoder.rules.rules[r]);
    }
  }

  ghost predicate GroupsCanonical(rule: RuleConfig) {
    rule.groupCount <= |rule.groups| && forall g | 0 <= g < rule.groupCount :: CanonicalGroup(rule.groups[g])
  }

  lemma GroupsInRange(rule: RuleConfig)
    requires RuleFits(rule)
    ensures rule.groupCount <= |rule.groups| == |KeptRule(rule).groups| && KeptRule(rule).groupCount == rule.groupCount
  {
  }

  /** The round trip is exact precisely for the configurations that fit: a zero byte in a string, a
      pin beyond a signed byte, or an overlong label in a slot validation does not look at, is lost. */
  lemma SurvivesExactlyWhenItFits(config: AppConfig)
    requires DecoderFits(config.gateOperator.decoder) && Roomy(config)
    ensures Shaped(Encoded(config)) && RecordFits(Encoded(config).decoder)
    ensures Decoded(Encoded(config)) == Kept(config) <==> Fits(config)
  {
    EncodedIsShaped(config);
    if Fits(config) {
      DecodedEncoded(config);
    }
    if Decoded(Encoded(config)) == Kept(config) {
      EncodedLabelsEnd(config.gateOperator.decoder);
      LoadedIsSettled(Encoded(config));
      FitsBeforeReset(config);
    }
  }

  lemma FitsBeforeReset(config: AppConfig)
    requires DecoderFits(config.gateOperator.decoder) && Fits(Kept(config))
    ensures Fits(config)
  {
    KeptDecoderFits(config.gateOperator.decoder);
    SlotsFitBeforeReset(config.gateOperator.decoder);
    hide DecoderFits, SlotsFit, KeptDecoder, CanonicalInput, CanonicalOutput, NulFree;
  }
}

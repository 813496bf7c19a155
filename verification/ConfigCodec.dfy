/** The loops that fill the packed decoder record and read it back. */
module ConfigCodec {
  import opened Ticks
  import opened DecoderModel
  import opened AppConfigModel
  import opened PersistedConfig

  // ---- Encoding ----

  method EncodeGroup(group: PredicateGroupConfig) returns (stored: PersistedGroup)
    requires GroupFits(group)
    ensures stored == EncodedGroup(group)
  {
    hide EncodedPredicate;
    var saved := ZERO_GROUP.predicates;
    for p := 0 to group.predicateCount
      invariant |saved| == MAX_PREDICATES_PER_GROUP
      invariant forall k | 0 <= k < p :: saved[k] == EncodedPredicate(group.predicates[k])
      invariant forall k | p <= k < MAX_PREDICATES_PER_GROUP :: saved[k] == ZERO_PREDICATE
    {
      saved := saved[p := EncodedPredicate(group.predicates[p])];
    }
    assert saved == EncodedGroup(group).predicates;
    stored := PersistedGroup(group.predicateCount, saved);
  }

  method EncodeRule(rule: RuleConfig, text: Bytes) returns (stored: PersistedRule)
    requires RuleFits(rule)
    ensures stored == EncodedRule(rule, text)
  {
    hide EncodedGroup, GroupFits, CopyString;
    var groups := ZERO_RULE.groups;
    for g := 0 to rule.groupCount
      invariant |groups| == MAX_GROUPS_PER_RULE
      invariant forall k | 0 <= k < g :: GroupFits(rule.groups[k]) && groups[k] == EncodedGroup(rule.groups[k])
      invariant forall k | g <= k < MAX_GROUPS_PER_RULE :: groups[k] == ZERO_GROUP
    {
      var group := EncodeGroup(rule.groups[g]);
      groups := groups[g := group];
    }
    assert groups == EncodedRule(rule, text).groups;
    stored := PersistedRule(
      rule.id, CopyString(LABEL_SIZE, text), if rule.enabled then 1 else 0, OutputKindCode(rule.output.kind),
      PositionCode(rule.output.position), MovementCode(rule.output.movement), FaultCode(rule.output.fault),
      rule.groupCount,
      groups, rule.movement.entryConfirmationMs, rule.movement.lossConfirmationMs, rule.movement.matchAgeLimitMs,
      ExpiryCode(rule.movement.expiry));
  }

  method EncodeDecoder(source: FeedbackDecoderConfig) returns (stored: PersistedDecoder)
    requires DecoderFits(source)
    ensures stored == EncodedDecoder(source)
  {
    hide EncodedRule, RuleFits, EncodedDecoderInput, RuleShaped;
    var zero := EmptyDecoder(source.profile);
    var inputs, ids, rules := zero.inputs, zero.ruleInputIds, zero.rules;
    for i := 0 to source.inputCount
      invariant |inputs| == MAX_INPUTS
      invariant forall k | 0 <= k < i :: inputs[k] == EncodedDecoderInput(source.inputs[k])
      invariant forall k | i <= k < MAX_INPUTS :: inputs[k] == ZERO_DECODER_INPUT
    {
      inputs := inputs[i := EncodedDecoderInput(source.inputs[i])];
    }
    for i := 0 to source.rules.inputCount
      invariant |ids| == MAX_INPUTS
      invariant forall k | 0 <= k < i :: ids[k] == source.rules.inputIds[k]
      invariant forall k | i <= k < MAX_INPUTS :: ids[k] == 0
    {
      ids := ids[i := source.rules.inputIds[i]];
    }
    for r := 0 to source.rules.ruleCount
      invariant |rules| == MAX_RULES
      invariant forall k | 0 <= k < r :: RuleFits(source.rules.rules[k])
                                         && rules[k] == EncodedRule(source.rules.rules[k], source.ruleLabels[k])
      invariant forall k | r <= k < MAX_RULES :: rules[k] == ZERO_RULE
    {
      var rule := EncodeRule(source.rules.rules[r], source.ruleLabels[r]);
      rules := rules[r := rule];
    }
    ghost var expected := EncodedDecoder(source);
    assert inputs == expected.inputs && ids == expected.ruleInputIds && rules == expected.rules;
    stored := PersistedDecoder(DecoderProfileCode(source.profile), source.inputCount, inputs, source.rules.inputCount,
                               ids, source.rules.ruleCount, rules);
  }

  // ---- Decoding ----

  method DecodeGroup(stored: PersistedGroup) returns (group: Option<PredicateGroupConfig>)
    requires |stored.predicates| == MAX_PREDICATES_PER_GROUP
    ensures group.Some? <==> RecordGroupFits(stored)
    ensures group.Some? ==> group.value == DecodedGroup(stored)
  {
    hide DecodedPredicate;
    if stored.predicateCount > MAX_PREDICATES_PER_GROUP { return None; }
    var predicates := DEFAULT_GROUP.predicates;
    for p := 0 to stored.predicateCount
      invariant |predicates| == MAX_PREDICATES_PER_GROUP
      invariant forall k | 0 <= k < p :: predicates[k] == DecodedPredicate(stored.predicates[k])
      invariant forall k | p <= k < MAX_PREDICATES_PER_GROUP :: predicates[k] == DEFAULT_PREDICATE
    {
      predicates := predicates[p := DecodedPredicate(stored.predicates[p])];
    }
    assert predicates == DecodedGroup(stored).predicates;
    group := Some(PredicateGroupConfig(predicates, stored.predicateCount));
  }

  method DecodeRule(stored: PersistedRule) returns (rule: Option<RuleConfig>)
    requires RuleRecordShaped(stored)
    ensures rule.Some? <==> RecordRuleFits(stored)
    ensures rule.Some? ==> rule.value == DecodedRule(stored)
  {
    hide DecodedGroup, RecordGroupFits;
    if stored.groupCount > MAX_GROUPS_PER_RULE { return None; }
    var groups := DEFAULT_RULE.groups;
    for g := 0 to stored.groupCount
      invariant |groups| == MAX_GROUPS_PER_RULE
      invariant forall k | 0 <= k < g ::
                  RecordGroupFits(stored.groups[k]) && groups[k] == DecodedGroup(stored.groups[k])
      invariant forall k | g <= k < MAX_GROUPS_PER_RULE :: groups[k] == DEFAULT_GROUP
    {
      var group := DecodeGroup(stored.groups[g]);
      if group.None? { return None; }
      groups := groups[g := group.value];
    }
    assert groups == DecodedRule(stored).groups;
    rule := Some(RuleConfig(
      stored.id, stored.enabled != 0,
      RuleOutputConfig(OutputKindOf(stored.outputKind), PositionOf(stored.position), MovementOf(stored.movement),
                       FaultOf(stored.fault)),
      groups, stored.groupCount,
      MovementLifecycleConfig(stored.entryConfirmationMs, stored.lossConfirmationMs, stored.matchAgeLimitMs,
                              ExpiryOf(stored.matchAgeExpiry))));
  }

  /** Refuses exactly the records with a count beyond its array. */
  method DecodeDecoder(source: PersistedDecoder) returns (decoded: Option<FeedbackDecoderConfig>)
    requires DecoderRecordShaped(source)
    ensures decoded.Some? <==> RecordFits(source)
    ensures decoded.Some? ==> decoded.value == DecodedDecoder(source)
  {
    hide DecodedRule, RecordRuleFits, RuleRecordShaped, DecodedDecoderInput, ReadString;
    if source.inputCount > MAX_INPUTS || source.ruleInputCount > MAX_INPUTS || source.ruleCount > MAX_RULES {
      return None;
    }
    var inputs, ids := seq(MAX_INPUTS, i => DEFAULT_DECODER_INPUT), Zeros(MAX_INPUTS);
    for i := 0 to source.inputCount
      invariant |inputs| == MAX_INPUTS
      invariant forall k | 0 <= k < i :: inputs[k] == DecodedDecoderInput(source.inputs[k])
      invariant forall k | i <= k < MAX_INPUTS :: inputs[k] == DEFAULT_DECODER_INPUT
    {
      inputs := inputs[i := DecodedDecoderInput(source.inputs[i])];
    }
    for i := 0 to source.ruleInputCount
      invariant |ids| == MAX_INPUTS
      invariant forall k | 0 <= k < i :: ids[k] == source.ruleInputIds[k]
      invariant forall k | i <= k < MAX_INPUTS :: ids[k] == 0
    {
      ids := ids[i := source.ruleInputIds[i]];
    }
    var rules, labels := seq(MAX_RULES, r => DEFAULT_RULE), seq(MAX_RULES, r => []);
    for r := 0 to source.ruleCount
      invariant |rules| == |labels| == MAX_RULES
      invariant forall k | 0 <= k < r :: RecordRuleFits(source.rules[k]) && rules[k] == DecodedRule(source.rules[k])
                                         && labels[k] == ReadString(source.rules[k].ruleLabel)
      invariant forall k | r <= k < MAX_RULES :: rules[k] == DEFAULT_RULE && labels[k] == []
    {
      var rule := DecodeRule(source.rules[r]);
      if rule.None? { return None; }
      rules, labels := rules[r := rule.value], labels[r := ReadString(source.rules[r].ruleLabel)];
    }
    ghost var expected := DecodedDecoder(source);
    assert inputs == expected.inputs && ids == expected.rules.inputIds && rules == expected.rules.rules
        && labels == expected.ruleLabels;
    decoded := Some(FeedbackDecoderConfig(DecoderProfileOf(source.profile), inputs, source.inputCount,
                                          DecoderConfig(ids, source.ruleInputCount, rules, source.ruleCount), labels));
  }
}

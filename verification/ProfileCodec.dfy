/** The loops that print a decoder configuration to a tree and parse it from one. */
module ProfileCodec {
  import opened Ticks
  import opened DecoderModel
  import opened AppConfigModel
  import opened PersistedConfig
  import opened ProfileTree

  method PrintGroup(group: PredicateGroupConfig) returns (json: Json)
    requires GroupFits(group)
    ensures json == PrintedGroup(group)
  {
    hide PrintedPredicate;
    var items := [];
    for p := 0 to group.predicateCount
      invariant |items| == p && forall k | 0 <= k < p :: items[k] == PrintedPredicate(group.predicates[k])
    {
      items := items + [PrintedPredicate(group.predicates[p])];
    }
    assert items == PrintedGroup(group).items;
    json := Array(items);
  }

  method PrintRule(rule: RuleConfig, text: Bytes) returns (json: Json)
    requires RuleFits(rule)
    ensures json == PrintedRule(rule, text)
  {
    hide GroupFits, PrintedGroup, RuleObject;
    var groups := [];
    for g := 0 to rule.groupCount
      invariant |groups| == g
      invariant forall k | 0 <= k < g :: GroupFits(rule.groups[k]) && groups[k] == PrintedGroup(rule.groups[k])
    {
      var group := PrintGroup(rule.groups[g]);
      groups := groups + [group];
    }
    assert groups == seq(rule.groupCount, g requires 0 <= g < rule.groupCount => PrintedGroup(rule.groups[g]));
    json := RuleObject(rule, text, groups);
  }

  method PrintDecoder(decoder: FeedbackDecoderConfig) returns (json: Json)
    requires DecoderFits(decoder)
    ensures json == PrintedDecoder(decoder)
  {
    hide RuleFits, RuleShaped, PrintedRule, PrintedDecoderInput, DecoderObject;
    var inputs, rules := [], [];
    for i := 0 to decoder.inputCount
      invariant |inputs| == i && forall k | 0 <= k < i :: inputs[k] == PrintedDecoderInput(decoder.inputs[k])
    {
      inputs := inputs + [PrintedDecoderInput(decoder.inputs[i])];
    }
    for r := 0 to decoder.rules.ruleCount
      invariant |rules| == r
      invariant forall k | 0 <= k < r :: RuleFits(decoder.rules.rules[k])
                                         && rules[k] == PrintedRule(decoder.rules.rules[k], decoder.ruleLabels[k])
    {
      var rule := PrintRule(decoder.rules.rules[r], decoder.ruleLabels[r]);
      rules := rules + [rule];
    }
    assert inputs == seq(decoder.inputCount, i requires 0 <= i < decoder.inputCount =>
                           PrintedDecoderInput(decoder.inputs[i]));
    assert rules == seq(decoder.rules.ruleCount, r requires 0 <= r < decoder.rules.ruleCount =>
      PrintedRule(decoder.rules.rules[r], decoder.ruleLabels[r]));
    json := DecoderObject(decoder.profile, inputs, rules);
  }

  method ParseGroup(json: Json) returns (group: Option<PredicateGroupConfig>)
    ensures group.Some? <==> GroupReadable(json)
    ensures group.Some? ==> group.value == ParsedGroup(json)
  {
    hide ParsedPredicate;
    if !json.Array? || |json.items| < 1 || |json.items| > MAX_PREDICATES_PER_GROUP { return None; }
    var predicates := DEFAULT_GROUP.predicates;
    for p := 0 to |json.items|
      invariant |predicates| == MAX_PREDICATES_PER_GROUP
      invariant forall k | 0 <= k < p ::
                  ParsedPredicate(json.items[k]).Some? && predicates[k] == ParsedPredicate(json.items[k]).value
      invariant forall k | p <= k < MAX_PREDICATES_PER_GROUP :: predicates[k] == DEFAULT_PREDICATE
    {
      var predicateConfig := ParsedPredicate(json.items[p]);
      if predicateConfig.None? { return None; }
      predicates := predicates[p := predicateConfig.value];
    }
    assert predicates == ParsedGroup(json).predicates;
    group := Some(PredicateGroupConfig(predicates, |json.items|));
  }

  method ParseRule(json: Json) returns (rule: Option<(RuleConfig, Bytes)>)
    ensures rule.Some? <==> RuleReadable(json)
    ensures rule.Some? ==> rule.value == (ParsedRule(json), Octets(ParsedHead(json).value.text))
  {
    hide ParsedHead, GroupReadable, ParsedGroup, Member, Octets;
    var head := ParsedHead(json);
    if head.None? { return None; }
    var member := Member(json, "groups");
    if member.None? || !member.value.Array? { return None; }
    var items := member.value.items;
    if |items| < 1 || |items| > MAX_GROUPS_PER_RULE { return None; }
    var groups := DEFAULT_RULE.groups;
    for g := 0 to |items|
      invariant |groups| == MAX_GROUPS_PER_RULE
      invariant forall k | 0 <= k < g :: GroupReadable(items[k]) && groups[k] == ParsedGroup(items[k])
      invariant forall k | g <= k < MAX_GROUPS_PER_RULE :: groups[k] == DEFAULT_GROUP
    {
      var group := ParseGroup(items[g]);
      if group.None? { return None; }
      groups := groups[g := group.value];
    }
    assert groups == ParsedRule(json).groups;
    rule := Some((RuleConfig(head.value.id, head.value.enabled, head.value.output, groups, |items|,
                             head.value.movement),
                  Octets(head.value.text)));
  }

  /** Accepts exactly the readable trees. */
  method ParseDecoder(json: Json) returns (decoder: Option<FeedbackDecoderConfig>)
    ensures decoder.Some? <==> Readable(json)
    ensures decoder.Some? ==> decoder.value == ParsedDecoder(json)
  {
    hide ParsedHead, RuleReadable, ParsedRule, ParsedDecoderInput, Member, Octets, TextOf, Items, ParseProfile;
    var profile := TextOf(Member(json, "profile"), 32);
    var inputItems, ruleItems := Items(json, "inputs"), Items(json, "rules");
    if profile.None? || inputItems.None? || ruleItems.None? || ParseProfile(profile.value).None? { return None; }
    if |inputItems.value| > MAX_INPUTS || |ruleItems.value| > MAX_RULES { return None; }
    var inputs, ids := seq(MAX_INPUTS, i => DEFAULT_DECODER_INPUT), Zeros(MAX_INPUTS);
    for i := 0 to |inputItems.value|
      invariant |inputs| == |ids| == MAX_INPUTS
      invariant forall k | 0 <= k < i :: ParsedDecoderInput(inputItems.value[k]).Some?
                                         && inputs[k] == ParsedDecoderInput(inputItems.value[k]).value
                                             && ids[k] == inputs[k].id
      invariant forall k | i <= k < MAX_INPUTS :: inputs[k] == DEFAULT_DECODER_INPUT && ids[k] == 0
    {
      var input := ParsedDecoderInput(inputItems.value[i]);
      if input.None? { return None; }
      inputs, ids := inputs[i := input.value], ids[i := input.value.id];
    }
    var rules, labels := seq(MAX_RULES, r => DEFAULT_RULE), seq(MAX_RULES, r => []);
    for r := 0 to |ruleItems.value|
      invariant |rules| == |labels| == MAX_RULES
      invariant forall k | 0 <= k < r :: RuleReadable(ruleItems.value[k]) && rules[k] == ParsedRule(ruleItems.value[k])
      invariant forall k | 0 <= k < r :: ParsedHead(ruleItems.value[k]).Some?
                                         && labels[k] == Octets(ParsedHead(ruleItems.value[k]).value.text)
      invariant forall k | r <= k < MAX_RULES :: rules[k] == DEFAULT_RULE && labels[k] == []
    {
      var rule := ParseRule(ruleItems.value[r]);
      if rule.None? { return None; }
      HasHead(ruleItems.value[r]);
      rules, labels := rules[r := rule.value.0], labels[r := rule.value.1];
    }
    ghost var expected := ParsedDecoder(json);
    assert inputs == expected.inputs && ids == expected.rules.inputIds && rules == expected.rules.rules
        && labels == expected.ruleLabels;
    decoder := Some(FeedbackDecoderConfig(ParseProfile(profile.value).value, inputs, |inputItems.value|,
                                          DecoderConfig(ids, |inputItems.value|, rules, |ruleItems.value|), labels));
  }

  lemma HasHead(json: Json)
    requires RuleReadable(json)
    ensures ParsedHead(json).Some?
  {
  }
}

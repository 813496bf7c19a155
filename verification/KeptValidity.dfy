/** A valid configuration stays valid when it is stored and loaded. */
module KeptValidity {
  import opened Ticks
  import opened DecoderModel
  import opened AppConfigModel
  import opened AppConfigValidation
  import opened DecoderCompiler
  import opened PersistedConfig
  import opened ConfigRoundTrip

  ghost predicate RulesFit(rules: DecoderConfig) {
    && rules.WellShaped() && rules.inputCount <= MAX_INPUTS && rules.ruleCount <= MAX_RULES
    && forall r | 0 <= r < rules.ruleCount :: RuleFits(rules.rules[r])
  }

  lemma KeptRulesAreShaped(rules: DecoderConfig)
    requires RulesFit(rules)
    ensures KeptRules(rules).WellShaped()
    ensures KeptRules(rules).inputCount == rules.inputCount && KeptRules(rules).ruleCount == rules.ruleCount
    ensures forall r | 0 <= r < rules.ruleCount :: KeptRules(rules).rules[r] == KeptRule(rules.rules[r])
  {
    DefaultRuleIsShaped();
    hide RuleFits, KeptRule, RuleShaped;
    forall r | 0 <= r < MAX_RULES
      ensures RuleShaped(KeptRules(rules).rules[r])
    {
      if r < rules.ruleCount {
        KeptRuleFits(rules.rules[r]);
        FittingRuleIsShaped(KeptRule(rules.rules[r]));
      }
    }
  }

  lemma SameDeclared(rules: DecoderConfig, id: Byte)
    requires RulesFit(rules) && KeptRules(rules).WellShaped() && CountsOk(rules)
    ensures Declared(KeptRules(rules), id) <==> Declared(rules, id)
  {
    hide RuleFits, KeptRule;
    var kept := KeptRules(rules);
    if Declared(rules, id) {
      var i :| 0 <= i < rules.inputCount && rules.inputIds[i] == id;
      assert kept.inputIds[i] == id;
    }
    if Declared(kept, id) {
      var i :| 0 <= i < kept.inputCount && kept.inputIds[i] == id;
      assert rules.inputIds[i] == id;
    }
  }

  lemma KeptRuleOk(rules: DecoderConfig, rule: RuleConfig)
    requires RulesFit(rules) && KeptRules(rules).WellShaped() && CountsOk(rules)
    requires RuleFits(rule) && SourceRuleOk(rules, rule)
    ensures RuleShaped(KeptRule(rule)) && SourceRuleOk(KeptRules(rules), KeptRule(rule))
  {
    KeptRuleFits(rule);
    FittingRuleIsShaped(KeptRule(rule));
    hide PredicateShapeOk, Declared, KnownOutput, LifecycleOk, KeptRules, DecoderConfig.WellShaped, RulesFit;
    var kept := KeptRule(rule);
    SameCounts(rules);
    forall g | 0 <= g < rule.groupCount
      ensures SourceGroupOk(KeptRules(rules), kept.groups[g])
    {
      assert SourceGroupOk(rules, rule.groups[g]);
      forall p | 0 <= p < rule.groups[g].predicateCount
        ensures SourcePredicateOk(KeptRules(rules), kept.groups[g].predicates[p])
      {
        assert SourcePredicateOk(rules, rule.groups[g].predicates[p]);
        SameDeclared(rules, rule.groups[g].predicates[p].inputId);
      }
    }
  }

  lemma SameCounts(rules: DecoderConfig)
    requires RulesFit(rules) && CountsOk(rules)
    ensures CountsOk(KeptRules(rules))
  {
  }

  lemma SameExpressionKept(left: RuleConfig, right: RuleConfig)
    requires RuleFits(left) && RuleFits(right)
    requires RuleShaped(KeptRule(left)) && RuleShaped(KeptRule(right))
             && SameExpression(KeptRule(left), KeptRule(right))
    ensures SameExpression(left, right)
  {
    hide SamePredicate;
    forall g | 0 <= g < left.groupCount
      ensures SameGroup(left.groups[g], right.groups[g])
    {
      var (l, r) := (KeptRule(left).groups[g], KeptRule(right).groups[g]);
      assert SameGroup(l, r);
      forall p | 0 <= p < left.groups[g].predicateCount
        ensures SamePredicate(left.groups[g].predicates[p], right.groups[g].predicates[p])
      {
        assert SamePredicate(l.predicates[p], r.predicates[p]);
      }
    }
  }

  /** Rules that compile still compile once their unused slots have been reset. */
  lemma KeptRulesCompile(rules: DecoderConfig)
    requires RulesFit(rules) && Accepts(rules)
    ensures KeptRules(rules).WellShaped() && Accepts(KeptRules(rules))
  {
    KeptRulesAreShaped(rules);
    SameCounts(rules);
    var kept := KeptRules(rules);
    hide SourceRuleOk, KeptRule, RuleFits, SameExpression, ConflictingOutput;
    forall i, j | 0 <= i < j < rules.ruleCount
      ensures PairOk(kept.rules[i], kept.rules[j])
    {
      assert PairOk(rules.rules[i], rules.rules[j]);
      KeptPairOk(rules.rules[i], rules.rules[j]);
    }
    forall r | 0 <= r < rules.ruleCount && kept.rules[r].enabled
      ensures SourceRuleOk(kept, kept.rules[r])
    {
      SameHead(rules.rules[r]);
      KeptRuleOk(rules, rules.rules[r]);
    }
  }

  lemma SameHead(rule: RuleConfig)
    requires RuleFits(rule)
    ensures KeptRule(rule).enabled == rule.enabled && KeptRule(rule).id == rule.id
        && KeptRule(rule).output == rule.output
  {
  }

  lemma KeptPairOk(left: RuleConfig, right: RuleConfig)
    requires RuleFits(left) && RuleFits(right) && RuleShaped(left) && RuleShaped(right) && PairOk(left, right)
    ensures RuleShaped(KeptRule(left)) && RuleShaped(KeptRule(right)) && PairOk(KeptRule(left), KeptRule(right))
  {
    KeptRuleFits(left);
    KeptRuleFits(right);
    FittingRuleIsShaped(KeptRule(left));
    FittingRuleIsShaped(KeptRule(right));
    SameHead(left);
    SameHead(right);
    hide KeptRule, RuleFits, SameExpression, ConflictingOutput;
    if SameExpression(KeptRule(left), KeptRule(right)) {
      SameExpressionKept(left, right);
    }
  }

  lemma KeptDecoderOk(decoder: FeedbackDecoderConfig)
    requires DecoderFits(decoder) && WellShaped(decoder) && DecoderOk(decoder)
    ensures WellShaped(KeptDecoder(decoder)) && DecoderOk(KeptDecoder(decoder))
  {
    KeptDecoderFits(decoder);
    hide LabelOk, KeptRule, RuleFits, RuleShaped, Accepts;
    if Accepts(decoder.rules) {
      KeptRulesCompile(decoder.rules);
    }
  }

  /** A valid configuration comes back valid. */
  lemma KeptValidates(config: AppConfig)
    requires WellShaped(config.gateOperator.decoder) && DecoderFits(config.gateOperator.decoder) && Validates(config)
    ensures WellShaped(Kept(config).gateOperator.decoder) && Validates(Kept(config))
  {
    var (operator, kept) := (config.gateOperator, Kept(config).gateOperator);
    KeptDecoderIsShaped(operator.decoder);
    if operator.decoder.profile.CustomRules? {
      KeptDecoderOk(operator.decoder);
    }
    SameInputs(operator, kept);
    hide KeptDecoder, DecoderOk, InputOk, PinsDistinct, ActuatorsOk, DecoderFits, WellShaped, NetworkOk, AdminOk,
      Inputs, Outputs;
    SameActuators(operator, kept, config.timing);
    SameNetwork(config);
  }

  lemma SameNetwork(config: AppConfig)
    requires DecoderFits(config.gateOperator.decoder)
    ensures NetworkOk(Kept(config)) == NetworkOk(config) && AdminOk(Kept(config)) == AdminOk(config)
  {
    hide DecoderFits, KeptDecoder;
  }

  lemma SameActuators(operator: OperatorConfig, kept: OperatorConfig, timing: TimingConfig)
    requires kept.profile == operator.profile && kept.close == operator.close
        && kept.minimumIntervalMs == operator.minimumIntervalMs
    requires if operator.profile.Sequential? then kept.step == operator.step else kept.open == operator.open
    ensures Outputs(kept) == Outputs(operator) && ActuatorsOk(kept, timing) == ActuatorsOk(operator, timing)
  {
  }

  lemma KeptDecoderIsShaped(decoder: FeedbackDecoderConfig)
    requires DecoderFits(decoder)
    ensures WellShaped(KeptDecoder(decoder))
  {
    KeptDecoderFits(decoder);
    hide KeptDecoder;
  }

  lemma SameInputs(operator: OperatorConfig, kept: OperatorConfig)
    requires |operator.decoder.inputs| == MAX_INPUTS && DecoderFits(operator.decoder)
    requires kept.decoder == KeptDecoder(operator.decoder) && kept.feedbackTopology == operator.feedbackTopology
    requires kept.closedFeedback == operator.closedFeedback
    requires if operator.feedbackTopology.SingleFeedback? then kept.singleFeedback == operator.singleFeedback
             else kept.openedFeedback == operator.openedFeedback
    ensures |kept.decoder.inputs| == MAX_INPUTS && Inputs(kept) == Inputs(operator)
  {
    hide KeptRules;
  }
}

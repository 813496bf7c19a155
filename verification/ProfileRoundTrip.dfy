/** Printing a decoder configuration and parsing it again, at the level of JSON trees. */
module ProfileRoundTrip {
  import opened Ticks
  import opened DecoderModel
  import opened AppConfigModel
  import opened PersistedConfig
  import opened ProfileTree

  // ---- What can be told in a profile ----

  predicate InputTold(input: FeedbackInputConfig) {
    && !input.activeLevel.OtherLevel? && !input.pull.OtherPull?
    && InRange(input.gpio, -1, 39) && InRange(input.debounceMs, 0, 10000)
  }

  predicate LabelTold(text: Bytes) {
    1 <= |text| <= 32 && NulFree(text)
  }

  predicate PredicateTold(p: PredicateConfig) {
    match p.kind
    case StableLevel => InRange(p.stable.holdMs, 1, MAX_DURATION_MS)
    case PeriodicEdges =>
      && InRange(p.periodic.minimumIntervalMs, 1, MAX_DURATION_MS)
      && InRange(p.periodic.maximumIntervalMs, 1, MAX_DURATION_MS)
      && InRange(p.periodic.minimumEdges, 2, MAX_EDGES_PER_INPUT)
      && InRange(p.periodic.observationWindowMs, 1, MAX_DURATION_MS)
      && InRange(p.periodic.maximumGapMs, 1, MAX_DURATION_MS)
    case OtherPredicate(_) => false
  }

  predicate OutputTold(output: RuleOutputConfig) {
    match output.kind
    case Position => !output.position.OtherPosition?
    case Movement => !output.movement.OtherMovement?
    case Fault => !output.fault.OtherFault?
    case OtherOutput(_) => false
  }

  predicate LifecycleTold(m: MovementLifecycleConfig) {
    && !m.expiry.OtherExpiry?
    && m.entryConfirmationMs <= MAX_DURATION_MS && m.lossConfirmationMs <= MAX_DURATION_MS
        && m.matchAgeLimitMs <= MAX_DURATION_MS
  }

  ghost predicate GroupTold(group: PredicateGroupConfig)
    requires GroupFits(group)
  {
    1 <= group.predicateCount && forall p | 0 <= p < group.predicateCount :: PredicateTold(group.predicates[p])
  }

  ghost predicate RuleTold(rule: RuleConfig, text: Bytes)
    requires RuleFits(rule)
  {
    && LabelTold(text) && OutputTold(rule.output) && LifecycleTold(rule.movement)
    && 1 <= rule.groupCount && forall g | 0 <= g < rule.groupCount :: GroupTold(rule.groups[g])
  }

  /** A well-formed decoder configuration: known enumerators, values in the ranges a profile allows,
      and rule input ids that repeat the declared ones. */
  ghost predicate Told(decoder: FeedbackDecoderConfig)
    requires DecoderFits(decoder)
  {
    && !decoder.profile.OtherDecoder?
    && decoder.rules.inputCount == decoder.inputCount
    && (forall i | 0 <= i < decoder.inputCount ::
          && LabelTold(decoder.inputs[i].inputLabel) && InputTold(decoder.inputs[i].electrical)
          && decoder.rules.inputIds[i] == decoder.inputs[i].id)
    && (forall r | 0 <= r < decoder.rules.ruleCount :: RuleTold(decoder.rules.rules[r], decoder.ruleLabels[r]))
  }

  // ---- What comes back ----

  function ActivePredicate(p: PredicateConfig): PredicateConfig {
    if p.kind == StableLevel then p.(periodic := DEFAULT_PREDICATE.periodic) else p.(stable := DEFAULT_PREDICATE.stable)
  }

  function ActiveOutput(output: RuleOutputConfig): RuleOutputConfig {
    var reset := DEFAULT_RULE_OUTPUT;
    match output.kind
    case Position => reset.(kind := Position, position := output.position)
    case Movement => reset.(kind := Movement, movement := output.movement)
    case _ => reset.(kind := output.kind, fault := output.fault)
  }

  ghost function ActiveGroup(group: PredicateGroupConfig): PredicateGroupConfig
    requires GroupFits(group)
  {
    group.(predicates := seq(MAX_PREDICATES_PER_GROUP, p requires 0 <= p < MAX_PREDICATES_PER_GROUP =>
      if p < group.predicateCount then ActivePredicate(group.predicates[p]) else DEFAULT_PREDICATE))
  }

  ghost function ActiveRule(rule: RuleConfig): RuleConfig
    requires RuleFits(rule)
  {
    rule.(output := ActiveOutput(rule.output),
          groups := seq(MAX_GROUPS_PER_RULE, g requires 0 <= g < MAX_GROUPS_PER_RULE =>
            if g < rule.groupCount then ActiveGroup(rule.groups[g]) else DEFAULT_GROUP))
  }

  /** Members that the kind of a predicate or of an output does not use, and unused slots, are reset. */
  ghost function Active(decoder: FeedbackDecoderConfig): FeedbackDecoderConfig
    requires DecoderFits(decoder)
  {
    decoder.(
      inputs := seq(MAX_INPUTS, i requires 0 <= i < MAX_INPUTS =>
        if i < decoder.inputCount then decoder.inputs[i] else DEFAULT_DECODER_INPUT),
      rules := decoder.rules.(
        inputIds := seq(MAX_INPUTS, i requires 0 <= i < MAX_INPUTS =>
          if i < decoder.rules.inputCount then decoder.rules.inputIds[i] else 0),
        rules := seq(MAX_RULES, r requires 0 <= r < MAX_RULES =>
          if r < decoder.rules.ruleCount then ActiveRule(decoder.rules.rules[r]) else DEFAULT_RULE)),
      ruleLabels := seq(MAX_RULES, r requires 0 <= r < MAX_RULES =>
        if r < decoder.rules.ruleCount then decoder.ruleLabels[r] else []))
  }

  // ---- Numbers and text ----

  lemma NumIsWhole(value: int, minimum: int, maximum: int)
    ensures Whole(Some(Num(value)), minimum, maximum) == if minimum <= value <= maximum then Some(value) else None
  {
    assert (value as real).Floor == value;
  }

  lemma {:induction false} NulFreeReadsWhole(text: Bytes)
    requires NulFree(text)
    ensures ReadString(text) == text
  {
    if text != [] {
      NulFreeReadsWhole(text[1..]);
    }
  }

  lemma TextSurvives(text: Bytes)
    requires LabelTold(text)
    ensures TextOf(Some(Text(CString(text))), 32) == Some(CString(text))
    ensures CString(text) != "" && Octets(CString(text)) == text
  {
    NulFreeReadsWhole(text);
  }

  lemma LevelSurvives(level: ActiveLevel)
    requires !level.OtherLevel?
    ensures |LevelName(level)| <= 4 && ParseLevel(LevelName(level)) == Some(level)
  {
  }

  lemma PullSurvives(pull: SensorPull)
    requires !pull.OtherPull?
    ensures |PullName(pull)| <= 4 && ParsePull(PullName(pull)) == Some(pull)
  {
    assert "none"[0] != "down"[0];
  }

  lemma ExpirySurvives(expiry: MatchAgeExpiry)
    requires !expiry.OtherExpiry?
    ensures |ExpiryName(expiry)| <= 32 && ParseExpiry(ExpiryName(expiry)) == Some(expiry)
  {
  }

  lemma OutcomeSurvives(output: RuleOutputConfig)
    requires OutputTold(output)
    ensures |OutputName(output)| <= 32 && ParseOutcome(OutputName(output)) == Some(ActiveOutput(output))
  {
    assert "opened"[0] != "closed"[0];
    assert "opening"[0] != "closing"[0] && "closing"[0] != "stopped"[0] && "opening"[0] != "stopped"[0];
  }

  // ---- Objects ----

  lemma InputMembers(a: Json, b: Json, c: Json, d: Json)
    ensures var o := Object(map["gpio" := a, "activeLevel" := b, "pull" := c, "debounceMs" := d]);
            Member(o, "gpio") == Some(a) && Member(o, "activeLevel") == Some(b) && Member(o, "pull") == Some(c)
            && Member(o, "debounceMs") == Some(d)
  {
    assert "gpio"[0] != "pull"[0];
  }

  lemma InputSurvives(input: FeedbackInputConfig)
    requires InputTold(input)
    ensures ParsedInput(PrintedInput(input)) == Some(input)
  {
    InputMembers(Num(input.gpio), Text(LevelName(input.activeLevel)), Text(PullName(input.pull)),
                 Num(input.debounceMs));
    NumIsWhole(input.gpio, -1, 39);
    NumIsWhole(input.debounceMs, 0, 10000);
    LevelSurvives(input.activeLevel);
    PullSurvives(input.pull);
    hide Member, Whole, Num, LevelName, PullName, ParseLevel, ParsePull;
  }

  lemma DecoderInputMembers(a: Json, b: Json, c: Json)
    ensures var o := Object(map["id" := a, "label" := b, "electrical" := c]);
            Member(o, "id") == Some(a) && Member(o, "label") == Some(b) && Member(o, "electrical") == Some(c)
  {
  }

  lemma DecoderInputSurvives(input: DecoderInputConfig)
    requires LabelTold(input.inputLabel) && InputTold(input.electrical)
    ensures ParsedDecoderInput(PrintedDecoderInput(input)) == Some(input)
  {
    DecoderInputMembers(Num(input.id), Text(CString(input.inputLabel)), PrintedInput(input.electrical));
    NumIsWhole(input.id, 0, 255);
    TextSurvives(input.inputLabel);
    InputSurvives(input.electrical);
    hide Member, Whole, Num, TextOf, CString, ParsedInput, PrintedInput, Octets;
  }

  lemma StableMembers(a: Json, b: Json, c: Json, d: Json)
    ensures var o := Object(map["inputId" := a, "kind" := b, "level" := c, "holdMs" := d]);
            Member(o, "inputId") == Some(a) && Member(o, "kind") == Some(b) && Member(o, "level") == Some(c)
            && Member(o, "holdMs") == Some(d)
  {
  }

  lemma PeriodicMembers(a: Json, b: Json, c: Json, d: Json, e: Json, f: Json, g: Json)
    ensures var o := Object(map["inputId" := a, "kind" := b, "minimumIntervalMs" := c, "maximumIntervalMs" := d,
                                "minimumEdges" := e, "observationWindowMs" := f, "maximumGapMs" := g]);
            && Member(o, "inputId") == Some(a) && Member(o, "kind") == Some(b)
            && Member(o, "minimumIntervalMs") == Some(c) && Member(o, "maximumIntervalMs") == Some(d)
            && Member(o, "minimumEdges") == Some(e) && Member(o, "observationWindowMs") == Some(f)
            && Member(o, "maximumGapMs") == Some(g)
  {
    assert "minimumIntervalMs"[1] != "maximumIntervalMs"[1] && "minimumEdges"[1] != "maximumGapMs"[1];
  }

  lemma StableSurvives(p: PredicateConfig)
    requires p.kind == StableLevel && PredicateTold(p)
    ensures ParsedPredicate(PrintedPredicate(p)) == Some(ActivePredicate(p))
  {
    StableMembers(Num(p.inputId), Text("stableLevel"), Num(if p.stable.level then 1 else 0), Num(p.stable.holdMs));
    NumIsWhole(p.inputId, 0, 255);
    NumIsWhole(if p.stable.level then 1 else 0, 0, 1);
    NumIsWhole(p.stable.holdMs, 1, MAX_DURATION_MS);
    hide Member, Whole, Num;
  }

  lemma PeriodicSurvives(p: PredicateConfig)
    requires p.kind == PeriodicEdges && PredicateTold(p)
    ensures ParsedPredicate(PrintedPredicate(p)) == Some(ActivePredicate(p))
  {
    var c := p.periodic;
    PeriodicMembers(Num(p.inputId), Text("periodicEdges"), Num(c.minimumIntervalMs), Num(c.maximumIntervalMs),
                    Num(c.minimumEdges), Num(c.observationWindowMs), Num(c.maximumGapMs));
    NumIsWhole(p.inputId, 0, 255);
    NumIsWhole(c.minimumIntervalMs, 1, MAX_DURATION_MS);
    NumIsWhole(c.maximumIntervalMs, 1, MAX_DURATION_MS);
    NumIsWhole(c.minimumEdges, 2, MAX_EDGES_PER_INPUT);
    NumIsWhole(c.observationWindowMs, 1, MAX_DURATION_MS);
    NumIsWhole(c.maximumGapMs, 1, MAX_DURATION_MS);
    KindNamesDiffer();
    hide Member, Whole, Num;
  }

  lemma KindNamesDiffer()
    ensures "periodicEdges" != "stableLevel"
  {
    assert |"periodicEdges"| != |"stableLevel"|;
  }

  lemma PredicateSurvives(p: PredicateConfig)
    requires PredicateTold(p)
    ensures ParsedPredicate(PrintedPredicate(p)) == Some(ActivePredicate(p))
  {
    hide ParsedPredicate, PrintedPredicate, ActivePredicate;
    if p.kind == StableLevel {
      StableSurvives(p);
    } else {
      PeriodicSurvives(p);
    }
  }

  lemma LifecycleMembers(a: Json, b: Json, c: Json, d: Json)
    ensures var o := Object(map["entryConfirmationMs" := a, "lossConfirmationMs" := b, "matchAgeLimitMs" := c,
                                "matchAgeExpiry" := d]);
            && Member(o, "entryConfirmationMs") == Some(a) && Member(o, "lossConfirmationMs") == Some(b)
            && Member(o, "matchAgeLimitMs") == Some(c) && Member(o, "matchAgeExpiry") == Some(d)
  {
  }

  lemma LifecycleSurvives(m: MovementLifecycleConfig)
    requires LifecycleTold(m)
    ensures ParsedLifecycle(PrintedLifecycle(m)) == Some(m)
  {
    LifecycleMembers(Num(m.entryConfirmationMs), Num(m.lossConfirmationMs), Num(m.matchAgeLimitMs),
                     Text(ExpiryName(m.expiry)));
    NumIsWhole(m.entryConfirmationMs, 0, MAX_DURATION_MS);
    NumIsWhole(m.lossConfirmationMs, 0, MAX_DURATION_MS);
    NumIsWhole(m.matchAgeLimitMs, 0, MAX_DURATION_MS);
    ExpirySurvives(m.expiry);
    hide Member, Whole, Num, ExpiryName, ParseExpiry;
  }

  lemma RuleMembers(a: Json, b: Json, c: Json, d: Json, e: Json, f: Json)
    ensures var o := Object(map["id" := a, "label" := b, "enabled" := c, "outcome" := d, "lifecycle" := e,
                                "groups" := f]);
            && Member(o, "id") == Some(a) && Member(o, "label") == Some(b) && Member(o, "enabled") == Some(c)
            && Member(o, "outcome") == Some(d) && Member(o, "lifecycle") == Some(e) && Member(o, "groups") == Some(f)
  {
    assert "enabled"[0] != "outcome"[0];
  }

  lemma HeadSurvives(rule: RuleConfig, text: Bytes, groups: seq<Json>)
    requires LabelTold(text) && OutputTold(rule.output) && LifecycleTold(rule.movement)
    ensures ParsedHead(RuleObject(rule, text, groups))
            == Some(RuleHead(rule.id, CString(text), rule.enabled, ActiveOutput(rule.output), rule.movement))
    ensures Member(RuleObject(rule, text, groups), "groups") == Some(Array(groups))
  {
    RuleMembers(Num(rule.id), Text(CString(text)), Bool(rule.enabled), Text(OutputName(rule.output)),
                PrintedLifecycle(rule.movement), Array(groups));
    NumIsWhole(rule.id, 0, 255);
    TextSurvives(text);
    OutcomeSurvives(rule.output);
    LifecycleSurvives(rule.movement);
    hide Member, Whole, Num, CString, OutputName, ParseOutcome, ParsedLifecycle, PrintedLifecycle, ActiveOutput;
  }

  lemma GroupSurvives(group: PredicateGroupConfig)
    requires GroupFits(group) && GroupTold(group)
    ensures GroupReadable(PrintedGroup(group)) && ParsedGroup(PrintedGroup(group)) == ActiveGroup(group)
  {
    hide PredicateTold, ParsedPredicate, PrintedPredicate, ActivePredicate;
    var items := PrintedGroup(group).items;
    forall p | 0 <= p < group.predicateCount
      ensures ParsedPredicate(items[p]) == Some(ActivePredicate(group.predicates[p]))
    {
      PredicateSurvives(group.predicates[p]);
    }
    assert ParsedGroup(PrintedGroup(group)).predicates == ActiveGroup(group).predicates;
  }

  lemma RuleSurvives(rule: RuleConfig, text: Bytes)
    requires RuleFits(rule) && RuleTold(rule, text)
    ensures RuleReadable(PrintedRule(rule, text)) && ParsedRule(PrintedRule(rule, text)) == ActiveRule(rule)
    ensures Octets(ParsedHead(PrintedRule(rule, text)).value.text) == text
  {
    var json := PrintedRule(rule, text);
    var groups := seq(rule.groupCount, g requires 0 <= g < rule.groupCount => PrintedGroup(rule.groups[g]));
    assert json == RuleObject(rule, text, groups);
    HeadSurvives(rule, text, groups);
    TextSurvives(text);
    hide ParsedHead, RuleObject, Member, CString, Octets, ActiveOutput, OutputTold, LifecycleTold, LabelTold, GroupTold,
      GroupReadable, ParsedGroup, ActiveGroup, PrintedGroup, PrintedRule;
    forall g | 0 <= g < rule.groupCount
      ensures GroupReadable(groups[g]) && ParsedGroup(groups[g]) == ActiveGroup(rule.groups[g])
    {
      assert GroupTold(rule.groups[g]);
      assert groups[g] == PrintedGroup(rule.groups[g]);
      GroupSurvives(rule.groups[g]);
    }
    assert ParsedRule(json).groups == ActiveRule(rule).groups;
  }

  lemma DecoderMembers(a: Json, b: Json, c: Json)
    ensures var o := Object(map["profile" := a, "inputs" := b, "rules" := c]);
            Member(o, "profile") == Some(a) && Member(o, "inputs") == Some(b) && Member(o, "rules") == Some(c)
  {
  }

  lemma DecoderObjectReads(profile: DecoderProfile, inputs: seq<Json>, rules: seq<Json>)
    requires !profile.OtherDecoder?
    ensures var o := DecoderObject(profile, inputs, rules);
            && TextOf(Member(o, "profile"), 32).Some?
            && ParseProfile(TextOf(Member(o, "profile"), 32).value) == Some(profile)
            && Items(o, "inputs") == Some(inputs) && Items(o, "rules") == Some(rules)
  {
    DecoderMembers(Text(if profile == CustomRules then "customRules" else "endpointPreset"), Array(inputs),
                   Array(rules));
    hide Member;
    assert |"customRules"| != |"endpointPreset"|;
  }

  /** Parsing a printed decoder configuration gives it back, but for members its kinds do not use
      and unused slots. */
  lemma ParsedPrinted(decoder: FeedbackDecoderConfig)
    requires DecoderFits(decoder) && Told(decoder)
    ensures Readable(PrintedDecoder(decoder)) && ParsedDecoder(PrintedDecoder(decoder)) == Active(decoder)
  {
    var json := PrintedDecoder(decoder);
    var inputs := seq(decoder.inputCount, i requires 0 <= i < decoder.inputCount =>
                        PrintedDecoderInput(decoder.inputs[i]));
    var rules := seq(decoder.rules.ruleCount, r requires 0 <= r < decoder.rules.ruleCount =>
      PrintedRule(decoder.rules.rules[r], decoder.ruleLabels[r]));
    assert json == DecoderObject(decoder.profile, inputs, rules);
    DecoderObjectReads(decoder.profile, inputs, rules);
    hide DecoderObject, Items, TextOf, Member, RuleReadable, ParsedRule, ActiveRule, PrintedRule, RuleTold, RuleFits,
      RuleShaped, ParsedDecoderInput, PrintedDecoderInput, LabelTold, InputTold, ParseProfile, ParsedHead, Octets,
      PrintedDecoder;
    forall i | 0 <= i < decoder.inputCount
      ensures ParsedDecoderInput(inputs[i]) == Some(decoder.inputs[i])
    {
      DecoderInputSurvives(decoder.inputs[i]);
    }
    forall r | 0 <= r < decoder.rules.ruleCount
      ensures RuleReadable(rules[r]) && ParsedRule(rules[r]) == ActiveRule(decoder.rules.rules[r])
      ensures ParsedHead(rules[r]).Some? && Octets(ParsedHead(rules[r]).value.text) == decoder.ruleLabels[r]
    {
      RuleSurvives(decoder.rules.rules[r], decoder.ruleLabels[r]);
      ReadableHasHead(rules[r]);
    }
    var (back, active) := (ParsedDecoder(json), Active(decoder));
    assert back.inputs == active.inputs;
    assert back.rules.inputIds == active.rules.inputIds;
    assert back.rules.rules == active.rules.rules;
    assert back.ruleLabels == active.ruleLabels;
  }

  lemma ReadableHasHead(json: Json)
    requires RuleReadable(json)
    ensures ParsedHead(json).Some?
  {
  }

  // ---- Printing what came back ----

  lemma ActiveRuleFits(rule: RuleConfig)
    requires RuleFits(rule)
    ensures RuleFits(ActiveRule(rule))
    ensures forall g | 0 <= g < rule.groupCount :: GroupFits(ActiveRule(rule).groups[g])
  {
  }

  lemma ActivePrintsAlike(p: PredicateConfig)
    ensures PrintedPredicate(ActivePredicate(p)) == PrintedPredicate(p)
  {
  }

  lemma ActiveOutcome(output: RuleOutputConfig)
    ensures OutputName(ActiveOutput(output)) == OutputName(output)
  {
  }

  lemma RulePrintsAlike(rule: RuleConfig, text: Bytes)
    requires RuleFits(rule)
    ensures RuleFits(ActiveRule(rule)) && PrintedRule(ActiveRule(rule), text) == PrintedRule(rule, text)
  {
    ActiveRuleFits(rule);
    ActiveOutcome(rule.output);
    hide PrintedPredicate, ActivePredicate, OutputName, PrintedLifecycle, CString, ActiveOutput;
    var active := ActiveRule(rule);
    forall g | 0 <= g < rule.groupCount
      ensures PrintedGroup(active.groups[g]) == PrintedGroup(rule.groups[g])
    {
      forall p | 0 <= p < rule.groups[g].predicateCount
        ensures PrintedPredicate(active.groups[g].predicates[p]) == PrintedPredicate(rule.groups[g].predicates[p])
      {
        ActivePrintsAlike(rule.groups[g].predicates[p]);
      }
      assert PrintedGroup(active.groups[g]).items == PrintedGroup(rule.groups[g]).items;
    }
    assert seq(active.groupCount, g requires 0 <= g < active.groupCount => PrintedGroup(active.groups[g]))
        == seq(rule.groupCount, g requires 0 <= g < rule.groupCount => PrintedGroup(rule.groups[g]));
  }

  lemma ShapedRule(rule: RuleConfig)
    requires RuleFits(rule)
    ensures RuleShaped(rule)
  {
  }

  lemma ShapedDefault()
    ensures RuleShaped(DEFAULT_RULE)
  {
  }

  lemma ActiveDecoderFits(decoder: FeedbackDecoderConfig)
    requires DecoderFits(decoder)
    ensures DecoderFits(Active(decoder))
  {
    ShapedDefault();
    hide RuleFits, ActiveRule, RuleShaped;
    forall r | 0 <= r < MAX_RULES
      ensures RuleShaped(Active(decoder).rules.rules[r])
      ensures r < decoder.rules.ruleCount ==> RuleFits(Active(decoder).rules.rules[r])
    {
      if r < decoder.rules.ruleCount {
        ActiveRuleFits(decoder.rules.rules[r]);
        ShapedRule(ActiveRule(decoder.rules.rules[r]));
      }
    }
  }

  /** The configuration that comes back prints to the same tree. */
  lemma ActivePrintsSameTree(decoder: FeedbackDecoderConfig)
    requires DecoderFits(decoder)
    ensures DecoderFits(Active(decoder)) && PrintedDecoder(Active(decoder)) == PrintedDecoder(decoder)
  {
    ActiveDecoderFits(decoder);
    hide RuleFits, ActiveRule, RuleShaped, PrintedRule, PrintedDecoderInput;
    var active := Active(decoder);
    forall r | 0 <= r < decoder.rules.ruleCount
      ensures RuleFits(active.rules.rules[r])
      ensures PrintedRule(active.rules.rules[r], active.ruleLabels[r])
                == PrintedRule(decoder.rules.rules[r], decoder.ruleLabels[r])
    {
      RulePrintsAlike(decoder.rules.rules[r], decoder.ruleLabels[r]);
    }
    assert seq(active.inputCount, i requires 0 <= i < active.inputCount => PrintedDecoderInput(active.inputs[i]))
        == seq(decoder.inputCount, i requires 0 <= i < decoder.inputCount => PrintedDecoderInput(decoder.inputs[i]));
    assert seq(active.rules.ruleCount, r requires 0 <= r < active.rules.ruleCount =>
                 PrintedRule(active.rules.rules[r], active.ruleLabels[r]))
        == seq(decoder.rules.ruleCount, r requires 0 <= r < decoder.rules.ruleCount =>
                 PrintedRule(decoder.rules.rules[r], decoder.ruleLabels[r]));
  }

  // ---- Everything that is parsed can be told again ----

  lemma ParsedPredicateTold(json: Json)
    requires ParsedPredicate(json).Some?
    ensures PredicateTold(ParsedPredicate(json).value)
        && ActivePredicate(ParsedPredicate(json).value) == ParsedPredicate(json).value
  {
    hide Member, TextOf;
  }

  lemma ParsedOutcomeTold(name: string)
    requires ParseOutcome(name).Some?
    ensures OutputTold(ParseOutcome(name).value) && ActiveOutput(ParseOutcome(name).value) == ParseOutcome(name).value
  {
  }

  lemma ParsedHeadTold(json: Json)
    requires ParsedHead(json).Some?
    ensures var head := ParsedHead(json).value;
            && LabelTold(Octets(head.text)) && OutputTold(head.output) && ActiveOutput(head.output) == head.output
            && LifecycleTold(head.movement)
  {
    ParsedOutcomeTold(TextOf(Member(json, "outcome"), 32).value);
    hide Member, ParseOutcome, ActiveOutput, OutputTold, ParseExpiry;
    ParsedLifecycleTold(Member(json, "lifecycle").value);
    hide ParsedLifecycle, LifecycleTold;
  }

  lemma ParsedLifecycleTold(json: Json)
    requires ParsedLifecycle(json).Some?
    ensures LifecycleTold(ParsedLifecycle(json).value)
  {
    hide Member;
  }

  lemma ParsedGroupTold(json: Json)
    requires GroupReadable(json)
    ensures var group := ParsedGroup(json);
            GroupFits(group) && GroupTold(group) && ActiveGroup(group) == group
  {
    hide ParsedPredicate, ActivePredicate, PredicateTold;
    var group := ParsedGroup(json);
    forall p | 0 <= p < group.predicateCount
      ensures PredicateTold(group.predicates[p]) && ActivePredicate(group.predicates[p]) == group.predicates[p]
    {
      ParsedPredicateTold(json.items[p]);
    }
    assert ActiveGroup(group).predicates == group.predicates;
  }

  lemma ParsedRuleTold(json: Json)
    requires RuleReadable(json)
    ensures var rule := ParsedRule(json);
            RuleFits(rule) && RuleTold(rule, Octets(ParsedHead(json).value.text)) && ActiveRule(rule) == rule
  {
    ParsedHeadTold(json);
    DefaultGroupFits();
    hide ParsedHead, ParsedGroup, ActiveGroup, GroupTold, GroupReadable, OutputTold, ActiveOutput, LifecycleTold,
      LabelTold, Octets, Member, GroupFits;
    var rule, groups := ParsedRule(json), Member(json, "groups").value.items;
    forall g | 0 <= g < MAX_GROUPS_PER_RULE
      ensures |rule.groups[g].predicates| == MAX_PREDICATES_PER_GROUP
      ensures g < rule.groupCount ==>
                GroupFits(rule.groups[g]) && GroupTold(rule.groups[g]) && ActiveGroup(rule.groups[g]) == rule.groups[g]
    {
      if g < rule.groupCount {
        ParsedGroupTold(groups[g]);
        FitGroupIsShaped(rule.groups[g]);
      }
    }
    assert ActiveRule(rule).groups == rule.groups;
  }

  lemma FitGroupIsShaped(group: PredicateGroupConfig)
    requires GroupFits(group)
    ensures |group.predicates| == MAX_PREDICATES_PER_GROUP
  {
  }

  lemma DefaultGroupFits()
    ensures |DEFAULT_GROUP.predicates| == MAX_PREDICATES_PER_GROUP
  {
  }

  lemma ParsedInputTold(json: Json)
    requires ParsedDecoderInput(json).Some?
    ensures var input := ParsedDecoderInput(json).value;
            LabelTold(input.inputLabel) && InputTold(input.electrical)
  {
    hide Member;
  }

  /** Whatever a tree is accepted as is well formed and already in the form in which it comes back:
      print it, parse it again, and nothing changes. */
  lemma ParsedIsSettled(json: Json)
    requires Readable(json)
    ensures var decoder := ParsedDecoder(json);
            && DecoderFits(decoder) && Told(decoder) && Active(decoder) == decoder
            && Readable(PrintedDecoder(decoder)) && ParsedDecoder(PrintedDecoder(decoder)) == decoder
  {
    var decoder, inputs, rules := ParsedDecoder(json), Items(json, "inputs").value, Items(json, "rules").value;
    RulesSettled(json);
    hide ParsedHead, ParsedRule, RuleReadable, RuleTold, RuleFits, ActiveRule, RuleShaped, ParsedDecoderInput,
      LabelTold, InputTold, Octets, PrintedDecoder, Items, TextOf, Member;
    forall i | 0 <= i < decoder.inputCount
      ensures LabelTold(decoder.inputs[i].inputLabel) && InputTold(decoder.inputs[i].electrical)
    {
      ParsedInputTold(inputs[i]);
    }
    assert Active(decoder).inputs == decoder.inputs && Active(decoder).ruleLabels == decoder.ruleLabels;
    assert Active(decoder).rules.inputIds == decoder.rules.inputIds
        && Active(decoder).rules.rules == decoder.rules.rules;
    hide Readable, ParsedDecoder;
    ParsedPrinted(decoder);
  }

  lemma RulesSettled(json: Json)
    requires Readable(json)
    ensures var rules := ParsedDecoder(json).rules.rules;
            && (forall r | 0 <= r < MAX_RULES :: RuleShaped(rules[r]))
            && (forall r | 0 <= r < |Items(json, "rules").value| ::
                  RuleFits(rules[r]) && RuleTold(rules[r],
                      ParsedDecoder(json).ruleLabels[r]) && ActiveRule(rules[r]) == rules[r])
  {
    ShapedDefault();
    hide ParsedHead, ParsedRule, RuleReadable, RuleTold, RuleFits, ActiveRule, RuleShaped, ParsedDecoderInput, Octets,
      Member, TextOf;
    var rules := Items(json, "rules").value;
    forall r | 0 <= r < |rules|
      ensures ParsedHead(rules[r]).Some?
    {
      ReadableHasHead(rules[r]);
    }
    forall r | 0 <= r < |rules|
      ensures RuleFits(ParsedRule(rules[r])) && RuleShaped(ParsedRule(rules[r]))
          && ActiveRule(ParsedRule(rules[r])) == ParsedRule(rules[r])
      ensures RuleTold(ParsedRule(rules[r]), Octets(ParsedHead(rules[r]).value.text))
    {
      ParsedRuleTold(rules[r]);
      ShapedRule(ParsedRule(rules[r]));
    }
  }

  // ---- The condition is exact ----

  lemma PredicateToldBefore(p: PredicateConfig)
    requires PredicateTold(ActivePredicate(p))
    ensures PredicateTold(p)
  {
  }

  lemma RuleToldBefore(rule: RuleConfig, text: Bytes)
    requires RuleFits(rule) && RuleFits(ActiveRule(rule)) && RuleTold(ActiveRule(rule), text)
    ensures RuleTold(rule, text)
  {
    hide PredicateTold, ActivePredicate, LabelTold;
    var active := ActiveRule(rule);
    forall g | 0 <= g < rule.groupCount
      ensures GroupTold(rule.groups[g])
    {
      assert GroupTold(active.groups[g]);
      forall p | 0 <= p < rule.groups[g].predicateCount
        ensures PredicateTold(rule.groups[g].predicates[p])
      {
        assert PredicateTold(active.groups[g].predicates[p]);
        PredicateToldBefore(rule.groups[g].predicates[p]);
      }
    }
  }

  /** Exactly the well-formed configurations survive being printed and parsed. */
  lemma SurvivesExactlyWhenTold(decoder: FeedbackDecoderConfig)
    requires DecoderFits(decoder)
    ensures (Readable(PrintedDecoder(decoder)) && ParsedDecoder(PrintedDecoder(decoder)) == Active(decoder))
            <==> Told(decoder)
  {
    if Told(decoder) {
      ParsedPrinted(decoder);
    }
    if Readable(PrintedDecoder(decoder)) && ParsedDecoder(PrintedDecoder(decoder)) == Active(decoder) {
      ParsedIsSettled(PrintedDecoder(decoder));
      ToldBeforeReset(decoder);
    }
  }

  lemma ToldBeforeReset(decoder: FeedbackDecoderConfig)
    requires DecoderFits(decoder) && DecoderFits(Active(decoder)) && Told(Active(decoder))
    ensures Told(decoder)
  {
    hide RuleFits, RuleShaped, RuleTold, ActiveRule, LabelTold, InputTold;
    var active := Active(decoder);
    forall i | 0 <= i < decoder.inputCount
      ensures LabelTold(decoder.inputs[i].inputLabel) && InputTold(decoder.inputs[i].electrical)
              && decoder.rules.inputIds[i] == decoder.inputs[i].id
    {
      assert active.inputs[i] == decoder.inputs[i] && active.rules.inputIds[i] == decoder.rules.inputIds[i];
    }
    forall r | 0 <= r < decoder.rules.ruleCount
      ensures RuleFits(decoder.rules.rules[r]) && RuleTold(decoder.rules.rules[r], decoder.ruleLabels[r])
    {
      assert active.rules.rules[r] == ActiveRule(decoder.rules.rules[r])
          && active.ruleLabels[r] == decoder.ruleLabels[r];
      ActiveRuleFits(decoder.rules.rules[r]);
      RuleToldBefore(decoder.rules.rules[r], decoder.ruleLabels[r]);
    }
  }
}

/** Compilation of the installer's rules into tables indexed by input and rule number. */
module DecoderCompiler {
  import opened Ticks
  import opened DecoderModel
  import opened DecoderEvaluation

  datatype CompileErrorCode =
    | InvalidCount | DuplicateInputId | DuplicateRuleId | UnknownInputId | EmptyRule | EmptyGroup
    | InvalidPredicate | InvalidLifecycle | ConflictingExpression | HistoryCapacityExceeded

  datatype CompileError = CompileError(code: CompileErrorCode, ruleId: Byte, groupIndex: nat, predicateIndex: nat)

  datatype Result<+T, +E> = Ok(value: T) | Err(error: E)

  // ---- What a configuration has to satisfy ----

  predicate CountsOk(source: DecoderConfig) {
    1 <= source.inputCount <= MAX_INPUTS && source.ruleCount <= MAX_RULES
  }

  ghost predicate Declared(source: DecoderConfig, id: Byte)
    requires source.WellShaped() && CountsOk(source)
  {
    exists i | 0 <= i < source.inputCount :: source.inputIds[i] == id
  }

  ghost predicate DistinctInputs(source: DecoderConfig)
    requires source.WellShaped() && CountsOk(source)
  {
    forall i, j | 0 <= i < j < source.inputCount :: source.inputIds[i] != source.inputIds[j]
  }

  predicate PredicateShapeOk(p: PredicateConfig) {
    && !p.kind.OtherPredicate?
    && (p.kind == StableLevel ==> StableOk(p.stable))
    && (p.kind == PeriodicEdges ==> PeriodicOk(p.periodic))
  }

  ghost predicate SourcePredicateOk(source: DecoderConfig, p: PredicateConfig)
    requires source.WellShaped() && CountsOk(source)
  {
    Declared(source, p.inputId) && PredicateShapeOk(p)
  }

  ghost predicate SourceGroupOk(source: DecoderConfig, group: PredicateGroupConfig)
    requires source.WellShaped() && CountsOk(source) && |group.predicates| == MAX_PREDICATES_PER_GROUP
  {
    && 1 <= group.predicateCount <= MAX_PREDICATES_PER_GROUP
    && forall p | 0 <= p < group.predicateCount :: SourcePredicateOk(source, group.predicates[p])
  }

  ghost predicate SourceRuleOk(source: DecoderConfig, rule: RuleConfig)
    requires source.WellShaped() && CountsOk(source) && RuleShaped(rule)
  {
    && KnownOutput(rule.output)
    && 1 <= rule.groupCount <= MAX_GROUPS_PER_RULE
    && LifecycleOk(rule.output, rule.movement)
    && forall g | 0 <= g < rule.groupCount :: SourceGroupOk(source, rule.groups[g])
  }

  /** Predicates that differ in nothing their kind reads. */
  predicate SamePredicate(left: PredicateConfig, right: PredicateConfig) {
    && left.kind == right.kind && left.inputId == right.inputId
    && if left.kind == StableLevel then left.stable == right.stable else left.periodic == right.periodic
  }

  ghost predicate SameGroup(left: PredicateGroupConfig, right: PredicateGroupConfig)
    requires |left.predicates| == |right.predicates| == MAX_PREDICATES_PER_GROUP
  {
    && left.predicateCount == right.predicateCount <= MAX_PREDICATES_PER_GROUP
    && forall p | 0 <= p < left.predicateCount :: SamePredicate(left.predicates[p], right.predicates[p])
  }

  ghost predicate SameExpression(left: RuleConfig, right: RuleConfig)
    requires RuleShaped(left) && RuleShaped(right)
  {
    && left.groupCount == right.groupCount <= MAX_GROUPS_PER_RULE
    && forall g | 0 <= g < left.groupCount :: SameGroup(left.groups[g], right.groups[g])
  }

  predicate ConflictingOutput(left: RuleOutputConfig, right: RuleOutputConfig) {
    && left.kind == right.kind
    && match left.kind
       case Position => left.position != right.position
       case Movement => left.movement != right.movement
       case Fault => left.fault != right.fault
       case OtherOutput(_) => false
  }

  ghost predicate PairOk(left: RuleConfig, right: RuleConfig)
    requires RuleShaped(left) && RuleShaped(right)
  {
    left.enabled && right.enabled ==>
      left.id != right.id && !(SameExpression(left, right) && ConflictingOutput(left.output, right.output))
  }

  ghost predicate PairsOk(source: DecoderConfig)
    requires source.WellShaped() && CountsOk(source)
  {
    forall i, j | 0 <= i < j < source.ruleCount :: PairOk(source.rules[i], source.rules[j])
  }

  ghost predicate Accepts(source: DecoderConfig)
    requires source.WellShaped()
  {
    && CountsOk(source) && DistinctInputs(source) && PairsOk(source)
    && RulesAccepted(source, source.ruleCount)
  }

  /** `error` names a check that the configuration really fails, at the place it names. */
  ghost predicate Justified(source: DecoderConfig, error: CompileError)
    requires source.WellShaped()
  {
    if !CountsOk(source) then error == CompileError(InvalidCount, 0, 0, 0)
    else match error.code
      case DuplicateInputId => !DistinctInputs(source) && error.ruleId == 0 && AtRule(error)
      case DuplicateRuleId =>
        exists i, j | 0 <= i < j < source.ruleCount ::
          && source.rules[i].enabled && source.rules[j].enabled
          && source.rules[i].id == source.rules[j].id == error.ruleId && AtRule(error)
      case ConflictingExpression =>
        exists i, j | 0 <= i < j < source.ruleCount ::
          && source.rules[i].enabled && source.rules[j].enabled && source.rules[j].id == error.ruleId && AtRule(error)
          && SameExpression(source.rules[i], source.rules[j])
          && ConflictingOutput(source.rules[i].output, source.rules[j].output)
      case HistoryCapacityExceeded => false
      case _ => exists r | 0 <= r < source.ruleCount ::
                  source.rules[r].enabled && source.rules[r].id == error.ruleId
                  && RuleFault(source, source.rules[r], error) && RulesAccepted(source, r)
  }

  /** The error names no group and no predicate. */
  predicate AtRule(error: CompileError) {
    error.groupIndex == error.predicateIndex == 0
  }

  ghost predicate RuleFault(source: DecoderConfig, rule: RuleConfig, error: CompileError)
    requires source.WellShaped() && CountsOk(source) && RuleShaped(rule)
  {
    match error.code
    case EmptyRule => rule.groupCount == 0 && AtRule(error)
    case InvalidLifecycle => !LifecycleOk(rule.output, rule.movement) && AtRule(error)
    case InvalidCount =>
      || (AtRule(error) && (!KnownOutput(rule.output) || rule.groupCount > MAX_GROUPS_PER_RULE))
      || (GroupAt(rule, error) && rule.groups[error.groupIndex].predicateCount > MAX_PREDICATES_PER_GROUP)
    case EmptyGroup => GroupAt(rule, error) && rule.groups[error.groupIndex].predicateCount == 0
    case UnknownInputId => PredicateAt(rule, error) && !Declared(source, ThePredicate(rule, error).inputId)
    case InvalidPredicate => PredicateAt(rule, error) && !PredicateShapeOk(ThePredicate(rule, error))
    case _ => false
  }

  /** The error names one of the rule's groups and no predicate. */
  ghost predicate GroupAt(rule: RuleConfig, error: CompileError)
    requires RuleShaped(rule)
  {
    error.groupIndex < rule.groupCount <= MAX_GROUPS_PER_RULE && error.predicateIndex == 0
  }

  ghost predicate PredicateAt(rule: RuleConfig, error: CompileError)
    requires RuleShaped(rule)
  {
    && error.groupIndex < rule.groupCount <= MAX_GROUPS_PER_RULE
    && error.predicateIndex < rule.groups[error.groupIndex].predicateCount <= MAX_PREDICATES_PER_GROUP
  }

  ghost function ThePredicate(rule: RuleConfig, error: CompileError): PredicateConfig
    requires RuleShaped(rule) && PredicateAt(rule, error)
  {
    rule.groups[error.groupIndex].predicates[error.predicateIndex]
  }

  /** The checks are made in this order, and the first that fails is reported. */
  ghost predicate FirstFailing(source: DecoderConfig, code: CompileErrorCode)
    requires source.WellShaped()
  {
    if !CountsOk(source) then code == InvalidCount
    else if !DistinctInputs(source) then code == DuplicateInputId
    else if !PairsOk(source) then code in {DuplicateRuleId, ConflictingExpression}
    else code !in {DuplicateInputId, DuplicateRuleId, ConflictingExpression, HistoryCapacityExceeded}
  }

  // ---- How a compiled record stems from its source ----

  ghost predicate PredicateFrom(source: DecoderConfig, p: PredicateConfig, c: CompiledPredicate)
    requires source.WellShaped() && CountsOk(source)
  {
    && c.input < source.inputCount && source.inputIds[c.input] == p.inputId
    && c.kind == p.kind && c.stable == p.stable && c.periodic == p.periodic
  }

  ghost predicate GroupFrom(source: DecoderConfig, group: PredicateGroupConfig, c: CompiledGroup)
    requires source.WellShaped() && CountsOk(source)
  {
    && |c.predicates| == group.predicateCount <= |group.predicates|
    && forall p | 0 <= p < |c.predicates| :: PredicateFrom(source, group.predicates[p], c.predicates[p])
  }

  ghost predicate RuleFrom(source: DecoderConfig, rule: RuleConfig, c: CompiledRule)
    requires source.WellShaped() && CountsOk(source)
  {
    && c.id == rule.id && c.output == rule.output && c.movement == rule.movement
    && |c.groups| == rule.groupCount <= |rule.groups|
    && forall g | 0 <= g < |c.groups| :: GroupFrom(source, rule.groups[g], c.groups[g])
  }

  /** The enabled rules among the first `n`, in the order they are listed. */
  function EnabledRules(source: DecoderConfig, n: nat): (enabled: seq<nat>)
    requires n <= |source.rules|
    ensures |enabled| <= n
    ensures forall k | 0 <= k < |enabled| :: enabled[k] < n && source.rules[enabled[k]].enabled
    ensures forall k, l | 0 <= k < l < |enabled| :: enabled[k] < enabled[l]
    ensures forall r | 0 <= r < n && source.rules[r].enabled :: r in enabled
  {
    if n == 0 then []
    else EnabledRules(source, n - 1) + if source.rules[n - 1].enabled then [n - 1] else []
  }

  ghost predicate RulesFrom(source: DecoderConfig, n: nat, rules: seq<CompiledRule>)
    requires source.WellShaped() && CountsOk(source) && n <= source.ruleCount
  {
    && |rules| == |EnabledRules(source, n)|
    && forall k | 0 <= k < |rules| :: RuleFrom(source, source.rules[EnabledRules(source, n)[k]], rules[k])
  }

  ghost predicate CompiledFrom(source: DecoderConfig, compiled: CompiledDecoder)
    requires source.WellShaped() && CountsOk(source)
  {
    && compiled.inputIds == source.inputIds[..source.inputCount]
    && RulesFrom(source, source.ruleCount, compiled.rules)
  }

  // ---- The compiler ----

  method FindSourceInput(source: DecoderConfig, id: Byte) returns (index: int)
    requires source.WellShaped() && CountsOk(source)
    ensures index < 0 ==> !Declared(source, id)
    ensures 0 <= index ==> index < source.inputCount && source.inputIds[index] == id
  {
    for i := 0 to source.inputCount
      invariant forall k | 0 <= k < i :: source.inputIds[k] != id
    {
      if source.inputIds[i] == id { return i; }
    }
    return -1;
  }

  method ExpressionEqual(left: RuleConfig, right: RuleConfig) returns (equal: bool)
    requires RuleShaped(left) && RuleShaped(right)
    ensures equal == SameExpression(left, right)
  {
    if left.groupCount > MAX_GROUPS_PER_RULE || right.groupCount > MAX_GROUPS_PER_RULE { return false; }
    if left.groupCount != right.groupCount { return false; }
    for g := 0 to left.groupCount
      invariant forall k | 0 <= k < g :: SameGroup(left.groups[k], right.groups[k])
    {
      if left.groups[g].predicateCount > MAX_PREDICATES_PER_GROUP
         || right.groups[g].predicateCount > MAX_PREDICATES_PER_GROUP { return false; }
      if left.groups[g].predicateCount != right.groups[g].predicateCount { return false; }
      for p := 0 to left.groups[g].predicateCount
        invariant forall k | 0 <= k < p :: SamePredicate(left.groups[g].predicates[k], right.groups[g].predicates[k])
      {
        if !SamePredicate(left.groups[g].predicates[p], right.groups[g].predicates[p]) { return false; }
      }
    }
    return true;
  }

  method CheckInputIds(source: DecoderConfig) returns (distinct: bool)
    requires source.WellShaped() && CountsOk(source)
    ensures distinct == DistinctInputs(source)
  {
    for i := 0 to source.inputCount
      invariant forall k, l | 0 <= k < l < source.inputCount && k < i :: source.inputIds[k] != source.inputIds[l]
    {
      for j := i + 1 to source.inputCount
        invariant forall l | i < l < j :: source.inputIds[i] != source.inputIds[l]
      {
        if source.inputIds[i] == source.inputIds[j] { return false; }
      }
    }
    return true;
  }

  method CheckRulePairs(source: DecoderConfig) returns (result: Result<(), CompileError>)
    requires source.WellShaped() && CountsOk(source)
    ensures result.Ok? <==> PairsOk(source)
    ensures result.Err? ==> Justified(source, result.error)
    ensures result.Err? ==> result.error.code in {DuplicateRuleId, ConflictingExpression}
  {
    for i := 0 to source.ruleCount
      invariant forall k, l | 0 <= k < l < source.ruleCount && k < i :: PairOk(source.rules[k], source.rules[l])
    {
      if source.rules[i].enabled {
        for j := i + 1 to source.ruleCount
          invariant forall l | i < l < j :: PairOk(source.rules[i], source.rules[l])
        {
          if source.rules[j].enabled && source.rules[i].id == source.rules[j].id {
            assert !PairOk(source.rules[i], source.rules[j]);
            return Err(CompileError(DuplicateRuleId, source.rules[i].id, 0, 0));
          }
          var same := ExpressionEqual(source.rules[i], source.rules[j]);
          if source.rules[j].enabled && same && ConflictingOutput(source.rules[i].output, source.rules[j].output) {
            assert !PairOk(source.rules[i], source.rules[j]);
            return Err(CompileError(ConflictingExpression, source.rules[j].id, 0, 0));
          }
        }
      }
    }
    return Ok(());
  }

  method CompilePredicate(source: DecoderConfig, rule: RuleConfig, g: nat, p: nat, capacity: seq<nat>)
    returns (result: Result<CompiledPredicate, CompileError>, newCapacity: seq<nat>)
    requires source.WellShaped() && CountsOk(source) && RuleShaped(rule)
    requires g < rule.groupCount <= MAX_GROUPS_PER_RULE
    requires p < rule.groups[g].predicateCount <= MAX_PREDICATES_PER_GROUP
    requires |capacity| == MAX_INPUTS && forall i | 0 <= i < MAX_INPUTS :: capacity[i] <= MAX_EDGES_PER_INPUT
    ensures |newCapacity| == MAX_INPUTS
            && forall i | 0 <= i < MAX_INPUTS :: capacity[i] <= newCapacity[i] <= MAX_EDGES_PER_INPUT
    ensures var predicateConfig := rule.groups[g].predicates[p];
            && (result.Ok? <==> SourcePredicateOk(source, predicateConfig))
            && (result.Ok? ==> PredicateFrom(source, predicateConfig, result.value)
                               && (predicateConfig.kind == PeriodicEdges ==>
                                     predicateConfig.periodic.minimumEdges <= newCapacity[result.value.input]))
    ensures result.Err? ==> result.error.ruleId == rule.id && RuleFault(source, rule, result.error)
                            && result.error.code in {UnknownInputId, InvalidPredicate}
  {
    newCapacity := capacity;
    var config := rule.groups[g].predicates[p];
    var input := FindSourceInput(source, config.inputId);
    if input < 0 {
      return Err(CompileError(UnknownInputId, rule.id, g, p)), newCapacity;
    }
    if config.kind.OtherPredicate? {
      return Err(CompileError(InvalidPredicate, rule.id, g, p)), newCapacity;
    }
    if config.kind == StableLevel {
      if config.stable.holdMs == 0 || config.stable.holdMs > MAX_DURATION_MS {
        return Err(CompileError(InvalidPredicate, rule.id, g, p)), newCapacity;
      }
    } else {
      var periodic := config.periodic;
      var minimumSpan := ((periodic.minimumEdges - 1) % WRAP) * periodic.minimumIntervalMs;
      if periodic.minimumIntervalMs == 0 || periodic.minimumIntervalMs > periodic.maximumIntervalMs
         || periodic.maximumIntervalMs > MAX_DURATION_MS || periodic.minimumEdges < 2
         || periodic.minimumEdges > MAX_EDGES_PER_INPUT || periodic.observationWindowMs == 0
         || periodic.observationWindowMs > MAX_DURATION_MS || periodic.maximumGapMs < periodic.maximumIntervalMs
         || periodic.maximumGapMs > MAX_DURATION_MS || minimumSpan > periodic.observationWindowMs {
        return Err(CompileError(InvalidPredicate, rule.id, g, p)), newCapacity;
      }
      var edges: nat := periodic.minimumEdges;
      newCapacity := newCapacity[input := if capacity[input] < edges then edges else capacity[input]];
      if newCapacity[input] > MAX_EDGES_PER_INPUT {
        assert false;
        return Err(CompileError(HistoryCapacityExceeded, rule.id, g, p)), newCapacity;
      }
    }
    result := Ok(CompiledPredicate(config.kind, input, config.stable, config.periodic));
  }

  method CompileGroup(source: DecoderConfig, rule: RuleConfig, g: nat, capacity: seq<nat>)
    returns (result: Result<CompiledGroup, CompileError>, newCapacity: seq<nat>)
    requires source.WellShaped() && CountsOk(source) && RuleShaped(rule) && CapacityOk(capacity)
    requires g < rule.groupCount <= MAX_GROUPS_PER_RULE
    ensures CapacityOk(newCapacity)
    ensures result.Ok? <==> SourceGroupOk(source, rule.groups[g])
    ensures result.Ok? ==> GroupFrom(source, rule.groups[g], result.value)
    ensures result.Err? ==> result.error.ruleId == rule.id && RuleFault(source, rule, result.error)
                            && result.error.code in {EmptyGroup, InvalidCount, UnknownInputId, InvalidPredicate}
  {
    newCapacity := capacity;
    var group := rule.groups[g];
    if group.predicateCount == 0 {
      return Err(CompileError(EmptyGroup, rule.id, g, 0)), newCapacity;
    }
    if group.predicateCount > MAX_PREDICATES_PER_GROUP {
      return Err(CompileError(InvalidCount, rule.id, g, 0)), newCapacity;
    }
    var predicates: seq<CompiledPredicate> := [];
    for p := 0 to group.predicateCount
      invariant CapacityOk(newCapacity) && |predicates| == p
      invariant forall k | 0 <= k < p :: SourcePredicateOk(source, group.predicates[k])
                                         && PredicateFrom(source, group.predicates[k], predicates[k])
    {
      var compiled;
      compiled, newCapacity := CompilePredicate(source, rule, g, p, newCapacity);
      if compiled.Err? { return Err(compiled.error), newCapacity; }
      predicates := predicates + [compiled.value];
    }
    result := Ok(CompiledGroup(predicates));
  }

  ghost predicate CapacityOk(capacity: seq<nat>) {
    |capacity| == MAX_INPUTS && forall i | 0 <= i < MAX_INPUTS :: capacity[i] <= MAX_EDGES_PER_INPUT
  }

  method CompileRule(source: DecoderConfig, rule: RuleConfig, capacity: seq<nat>)
    returns (result: Result<CompiledRule, CompileError>, newCapacity: seq<nat>)
    requires source.WellShaped() && CountsOk(source) && RuleShaped(rule) && CapacityOk(capacity)
    ensures CapacityOk(newCapacity)
    ensures result.Ok? <==> SourceRuleOk(source, rule)
    ensures result.Ok? ==> RuleFrom(source, rule, result.value)
    ensures result.Err? ==> result.error.ruleId == rule.id && RuleFault(source, rule, result.error)
                            && result.error.code !in
                               {DuplicateInputId, DuplicateRuleId, ConflictingExpression, HistoryCapacityExceeded}
  {
    newCapacity := capacity;
    var output, lifecycle := rule.output, rule.movement;
    if output.kind.OtherOutput? || output.position.OtherPosition? || output.movement.OtherMovement?
       || output.fault.OtherFault? || rule.groupCount == 0 || rule.groupCount > MAX_GROUPS_PER_RULE {
      return Err(CompileError(if rule.groupCount == 0 then EmptyRule else InvalidCount, rule.id, 0, 0)), newCapacity;
    }
    var isEmpty := lifecycle.entryConfirmationMs == 0 && lifecycle.lossConfirmationMs == 0
                   && lifecycle.matchAgeLimitMs == 0 && lifecycle.expiry == NoExpiry;
    if (output.kind != Movement && !isEmpty) || lifecycle.expiry.OtherExpiry?
       || lifecycle.entryConfirmationMs > MAX_DURATION_MS || lifecycle.lossConfirmationMs > MAX_DURATION_MS
       || lifecycle.matchAgeLimitMs > MAX_DURATION_MS
       || (lifecycle.matchAgeLimitMs == 0) != (lifecycle.expiry == NoExpiry) {
      return Err(CompileError(InvalidLifecycle, rule.id, 0, 0)), newCapacity;
    }
    var groups: seq<CompiledGroup> := [];
    for g := 0 to rule.groupCount
      invariant CapacityOk(newCapacity) && |groups| == g
      invariant forall k | 0 <= k < g ::
                  SourceGroupOk(source, rule.groups[k]) && GroupFrom(source, rule.groups[k], groups[k])
    {
      var compiled;
      compiled, newCapacity := CompileGroup(source, rule, g, newCapacity);
      if compiled.Err? { return Err(compiled.error), newCapacity; }
      groups := groups + [compiled.value];
    }
    result := Ok(CompiledRule(rule.id, rule.output, groups, rule.movement));
  }

  /** The tables are returned only on success; a caller's own tables are never touched on failure. */
  method Compile(source: DecoderConfig) returns (result: Result<CompiledDecoder, CompileError>)
    requires source.WellShaped()
    ensures result.Ok? <==> Accepts(source)
    ensures result.Ok? ==> CompiledFrom(source, result.value) && CompiledOk(result.value)
    ensures result.Err? ==> Justified(source, result.error) && FirstFailing(source, result.error.code)
  {
    if source.inputCount == 0 || source.inputCount > MAX_INPUTS || source.ruleCount > MAX_RULES {
      return Err(CompileError(InvalidCount, 0, 0, 0));
    }
    var distinct := CheckInputIds(source);
    if !distinct {
      return Err(CompileError(DuplicateInputId, 0, 0, 0));
    }
    var pairs := CheckRulePairs(source);
    if pairs.Err? {
      return Err(pairs.error);
    }
    var tables := CompileRules(source);
    if tables.Err? {
      return Err(tables.error);
    }
    CompiledRulesOk(source, tables.value);
    result := tables;
  }

  /** The loop over the source rules, the rest of the configuration being in order. */
  method CompileRules(source: DecoderConfig) returns (result: Result<CompiledDecoder, CompileError>)
    requires source.WellShaped() && CountsOk(source)
    ensures result.Ok? <==> RulesAccepted(source, source.ruleCount)
    ensures result.Ok? ==> CompiledFrom(source, result.value) && FamiliesOk(result.value)
    ensures result.Err? ==> Justified(source, result.error)
    ensures result.Err? ==>
              result.error.code !in {DuplicateInputId, DuplicateRuleId, ConflictingExpression, HistoryCapacityExceeded}
  {
    hide SourceRuleOk, RuleFrom, IsFamily, RulesFrom, Justified, RuleFault;
    NoRules(source);
    var capacity: seq<nat> := seq(MAX_INPUTS, i => 0);
    var rules: seq<CompiledRule> := [];
    var position: seq<nat>, movement: seq<nat>, fault: seq<nat> := [], [], [];
    NoFamilies();
    for sourceIndex := 0 to source.ruleCount
      invariant CapacityOk(capacity) && RulesFrom(source, sourceIndex, rules) && RulesAccepted(source, sourceIndex)
      invariant IsFamily(rules, Position, position) && IsFamily(rules, Movement, movement)
                && IsFamily(rules, Fault, fault)
    {
      var rule := source.rules[sourceIndex];
      if rule.enabled {
        var compiled;
        compiled, capacity := CompileRule(source, rule, capacity);
        RulesGrow(source, sourceIndex, rules, compiled);
        if compiled.Err? {
          FaultJustifies(source, sourceIndex, compiled.error);
          return Err(compiled.error);
        }
        var index := |rules|;
        FamiliesGrow(rules, compiled.value, position, movement, fault);
        OutputIsKnown(source, rule, compiled.value);
        rules := rules + [compiled.value];
        match rule.output.kind {
          case Position => position := position + [index];
          case Movement => movement := movement + [index];
          case Fault => fault := fault + [index];
          case OtherOutput(_) => assert false;
        }
      } else {
        SkippedRule(source, sourceIndex, rules);
      }
    }
    result := Ok(CompiledDecoder(source.inputIds[..source.inputCount], rules, position, movement, fault, capacity));
  }

  lemma NoRules(source: DecoderConfig)
    requires source.WellShaped() && CountsOk(source)
    ensures RulesFrom(source, 0, [])
  {
  }

  lemma RulesGrow(source: DecoderConfig, r: nat, rules: seq<CompiledRule>, compiled: Result<CompiledRule, CompileError>)
    requires source.WellShaped() && CountsOk(source) && r < source.ruleCount && source.rules[r].enabled
    requires RulesFrom(source, r, rules) && (compiled.Ok? ==> RuleFrom(source, source.rules[r], compiled.value))
    ensures compiled.Ok? ==> RulesFrom(source, r + 1, rules + [compiled.value])
  {
    hide RuleFrom;
  }

  lemma SkippedRule(source: DecoderConfig, r: nat, rules: seq<CompiledRule>)
    requires source.WellShaped() && CountsOk(source) && r < source.ruleCount && !source.rules[r].enabled
    requires RulesFrom(source, r, rules)
    ensures RulesFrom(source, r + 1, rules)
  {
    hide RuleFrom;
    assert EnabledRules(source, r) + [] == EnabledRules(source, r);
  }

  lemma FaultJustifies(source: DecoderConfig, r: nat, error: CompileError)
    requires source.WellShaped() && CountsOk(source) && r < source.ruleCount && source.rules[r].enabled
    requires error.ruleId == source.rules[r].id && RuleFault(source, source.rules[r], error)
    requires RulesAccepted(source, r)
    ensures Justified(source, error)
  {
    hide KnownOutput, LifecycleOk, PredicateShapeOk, Declared;
  }

  ghost predicate RulesAccepted(source: DecoderConfig, n: nat)
    requires source.WellShaped() && CountsOk(source) && n <= source.ruleCount
  {
    forall r | 0 <= r < n && source.rules[r].enabled :: SourceRuleOk(source, source.rules[r])
  }

  ghost predicate FamiliesOk(compiled: CompiledDecoder) {
    && IsFamily(compiled.rules, Position, compiled.positionRules)
    && IsFamily(compiled.rules, Movement, compiled.movementRules)
    && IsFamily(compiled.rules, Fault, compiled.faultRules)
  }

  lemma NoFamilies()
    ensures forall kind :: IsFamily([], kind, [])
  {
  }

  lemma OutputIsKnown(source: DecoderConfig, rule: RuleConfig, compiled: CompiledRule)
    requires source.WellShaped() && CountsOk(source) && RuleShaped(rule)
    requires SourceRuleOk(source, rule) && RuleFrom(source, rule, compiled)
    ensures KnownOutput(rule.output) && compiled.output == rule.output
  {
  }

  lemma FamilyGrows(rules: seq<CompiledRule>, rule: CompiledRule, kind: RuleOutputKind, family: seq<nat>)
    requires IsFamily(rules, kind, family)
    ensures rule.output.kind == kind ==> IsFamily(rules + [rule], kind, family + [|rules|])
    ensures rule.output.kind != kind ==> IsFamily(rules + [rule], kind, family)
  {
  }

  lemma FamiliesGrow(rules: seq<CompiledRule>, rule: CompiledRule, position: seq<nat>, movement: seq<nat>,
      fault: seq<nat>)
    requires IsFamily(rules, Position, position) && IsFamily(rules, Movement, movement) && IsFamily(rules, Fault, fault)
    ensures IsFamily(rules + [rule], Position, if rule.output.kind == Position then position + [|rules|] else position)
    ensures IsFamily(rules + [rule], Movement, if rule.output.kind == Movement then movement + [|rules|] else movement)
    ensures IsFamily(rules + [rule], Fault, if rule.output.kind == Fault then fault + [|rules|] else fault)
  {
    FamilyGrows(rules, rule, Position, position);
    FamilyGrows(rules, rule, Movement, movement);
    FamilyGrows(rules, rule, Fault, fault);
  }

  lemma CompiledRuleIsOk(source: DecoderConfig, rule: RuleConfig, compiled: CompiledRule)
    requires source.WellShaped() && CountsOk(source) && RuleShaped(rule)
    requires SourceRuleOk(source, rule) && RuleFrom(source, rule, compiled)
    ensures CompiledRuleOk(compiled, source.inputCount)
  {
    forall g | 0 <= g < |compiled.groups| ensures CompiledGroupOk(compiled.groups[g], source.inputCount) {
      assert SourceGroupOk(source, rule.groups[g]) && GroupFrom(source, rule.groups[g], compiled.groups[g]);
      forall p | 0 <= p < |compiled.groups[g].predicates|
        ensures CompiledPredicateOk(compiled.groups[g].predicates[p], source.inputCount)
      {
        assert SourcePredicateOk(source, rule.groups[g].predicates[p]);
        assert PredicateFrom(source, rule.groups[g].predicates[p], compiled.groups[g].predicates[p]);
      }
    }
  }

  lemma CompiledRulesOk(source: DecoderConfig, compiled: CompiledDecoder)
    requires source.WellShaped() && Accepts(source) && CompiledFrom(source, compiled)
    ensures RulesOk(compiled.rules, |compiled.inputIds|)
    ensures |compiled.rules| <= MAX_RULES
    ensures forall r, s | 0 <= r < s < |compiled.rules| :: compiled.rules[r].id != compiled.rules[s].id
  {
    hide SourceRuleOk, CompiledRuleOk;
    var enabled := EnabledRules(source, source.ruleCount);
    forall k | 0 <= k < |compiled.rules| ensures CompiledRuleOk(compiled.rules[k], |compiled.inputIds|) {
      CompiledRuleIsOk(source, source.rules[enabled[k]], compiled.rules[k]);
    }
    forall r, s | 0 <= r < s < |compiled.rules| ensures compiled.rules[r].id != compiled.rules[s].id {
      assert enabled[r] < enabled[s];
      assert PairOk(source.rules[enabled[r]], source.rules[enabled[s]]);
    }
  }
}

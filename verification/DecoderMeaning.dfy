/** Compilation keeps what the rules mean: a rule read as written, looking inputs up by their
    declared id, is true exactly when its compiled form, looking them up by index, is. */
module DecoderMeaning {
  import opened Ticks
  import opened DecoderModel
  import opened DecoderEvaluation
  import opened DecoderCompiler

  /** A predicate as the installer reads it. */
  ghost predicate PredicateMeaning(clock: Clock, p: PredicateConfig, evidence: map<Byte, InputView>, now: int) {
    p.inputId in evidence && var input := evidence[p.inputId];
    && input.valid
    && match p.kind
       case StableLevel => StableValue(clock, p.stable, input, now)
       case PeriodicEdges => PeriodicValue(clock, p.periodic, input.edges, now)
       case OtherPredicate(_) => false
  }

  ghost predicate GroupMeaning(clock: Clock, group: PredicateGroupConfig, evidence: map<Byte, InputView>, now: int)
    requires group.predicateCount <= |group.predicates|
  {
    forall p | 0 <= p < group.predicateCount :: PredicateMeaning(clock, group.predicates[p], evidence, now)
  }

  /** Any group all of whose predicates hold. */
  ghost predicate RuleMeaning(clock: Clock, rule: RuleConfig, evidence: map<Byte, InputView>, now: int)
    requires rule.groupCount <= |rule.groups|
    requires forall g | 0 <= g < rule.groupCount :: rule.groups[g].predicateCount <= |rule.groups[g].predicates|
  {
    exists g | 0 <= g < rule.groupCount :: GroupMeaning(clock, rule.groups[g], evidence, now)
  }

  ghost predicate EvidenceFor(ids: seq<Byte>, evidence: map<Byte, InputView>, inputs: seq<InputView>) {
    |inputs| == |ids| && forall i | 0 <= i < |ids| :: ids[i] in evidence && evidence[ids[i]] == inputs[i]
  }

  lemma PredicateKeepsMeaning(clock: Clock, source: DecoderConfig, p: PredicateConfig, c: CompiledPredicate,
                              evidence: map<Byte, InputView>, inputs: seq<InputView>, now: int)
    requires source.WellShaped() && CountsOk(source) && PredicateFrom(source, p, c) && !p.kind.OtherPredicate?
    requires EvidenceFor(source.inputIds[..source.inputCount], evidence, inputs)
    ensures PredicateValue(clock, c, inputs[c.input], now) == PredicateMeaning(clock, p, evidence, now)
  {
    assert source.inputIds[..source.inputCount][c.input] == p.inputId;
  }

  lemma GroupKeepsMeaning(clock: Clock, source: DecoderConfig, group: PredicateGroupConfig, c: CompiledGroup,
                          evidence: map<Byte, InputView>, inputs: seq<InputView>, now: int)
    requires source.WellShaped() && CountsOk(source) && |group.predicates| == MAX_PREDICATES_PER_GROUP
    requires SourceGroupOk(source, group) && GroupFrom(source, group, c) && CompiledGroupOk(c, |inputs|)
    requires EvidenceFor(source.inputIds[..source.inputCount], evidence, inputs)
    ensures GroupValue(clock, c, inputs, now, |c.predicates|) == GroupMeaning(clock, group, evidence, now)
  {
    hide PredicateValue, PredicateMeaning, CompiledGroupOk;
    forall p | 0 <= p < |c.predicates|
      ensures c.predicates[p].input < |inputs|
      ensures PredicateValue(clock, c.predicates[p], inputs[c.predicates[p].input], now)
           == PredicateMeaning(clock, group.predicates[p], evidence, now)
    {
      assert SourcePredicateOk(source, group.predicates[p])
             && PredicateFrom(source, group.predicates[p], c.predicates[p]);
      PredicateKeepsMeaning(clock, source, group.predicates[p], c.predicates[p], evidence, inputs, now);
    }
  }

  lemma RuleKeepsMeaning(clock: Clock, source: DecoderConfig, rule: RuleConfig, c: CompiledRule,
                         evidence: map<Byte, InputView>, inputs: seq<InputView>, now: int)
    requires source.WellShaped() && CountsOk(source) && RuleShaped(rule)
    requires SourceRuleOk(source, rule) && RuleFrom(source, rule, c) && CompiledRuleOk(c, |inputs|)
    requires EvidenceFor(source.inputIds[..source.inputCount], evidence, inputs)
    ensures RuleValue(clock, c, inputs, now, |c.groups|) == RuleMeaning(clock, rule, evidence, now)
  {
    hide GroupValue, GroupMeaning, CompiledGroupOk, EvidenceFor, GroupFrom;
    forall g | 0 <= g < |c.groups|
      ensures GroupValue(clock, c.groups[g], inputs, now, |c.groups[g].predicates|)
           == GroupMeaning(clock, rule.groups[g], evidence, now)
    {
      assert SourceGroupOk(source, rule.groups[g]) && GroupFrom(source, rule.groups[g], c.groups[g]);
      GroupKeepsMeaning(clock, source, rule.groups[g], c.groups[g], evidence, inputs, now);
    }
  }

  /** Every enabled rule, in order, has the truth value of its compiled form at every instant and
      on any evidence; output and lifecycle are carried over unchanged. */
  lemma CompilationKeepsMeaning(clock: Clock, source: DecoderConfig, compiled: CompiledDecoder, k: nat,
                                evidence: map<Byte, InputView>, inputs: seq<InputView>, now: int)
    requires source.WellShaped() && Accepts(source) && CompiledFrom(source, compiled) && CompiledOk(compiled)
    requires k < |compiled.rules| && EvidenceFor(compiled.inputIds, evidence, inputs)
    ensures |compiled.rules| == |EnabledRules(source, source.ruleCount)|
    ensures var rule := source.rules[EnabledRules(source, source.ruleCount)[k]];
            && rule.enabled && SourceRuleOk(source, rule)
            && RuleValue(clock, compiled.rules[k], inputs, now, |compiled.rules[k].groups|)
               == RuleMeaning(clock, rule, evidence, now)
            && compiled.rules[k].id == rule.id
            && compiled.rules[k].output == rule.output && compiled.rules[k].movement == rule.movement
  {
    hide RuleValue, RuleMeaning, SourceRuleOk, CompiledRuleOk, IsFamily;
    var rule := source.rules[EnabledRules(source, source.ruleCount)[k]];
    assert RuleFrom(source, rule, compiled.rules[k]);
    RuleKeepsMeaning(clock, source, rule, compiled.rules[k], evidence, inputs, now);
  }

  /** The textual comparison of expressions is sound: rules it calls equal mean the same. */
  lemma SameExpressionSameMeaning(clock: Clock, left: RuleConfig, right: RuleConfig, evidence: map<Byte, InputView>,
      now: int)
    requires RuleShaped(left) && RuleShaped(right) && SameExpression(left, right)
    ensures RuleMeaning(clock, left, evidence, now) == RuleMeaning(clock, right, evidence, now)
  {
    forall g | 0 <= g < left.groupCount
      ensures GroupMeaning(clock, left.groups[g], evidence, now) == GroupMeaning(clock, right.groups[g], evidence, now)
    {
      assert SameGroup(left.groups[g], right.groups[g]);
      forall p | 0 <= p < left.groups[g].predicateCount
        ensures PredicateMeaning(clock, left.groups[g].predicates[p], evidence, now)
             == PredicateMeaning(clock, right.groups[g].predicates[p], evidence, now)
      {
        assert SamePredicate(left.groups[g].predicates[p], right.groups[g].predicates[p]);
      }
    }
  }

  /** An index is in exactly one of the three families: their lengths add up to the number of rules. */
  lemma FamiliesPartition(compiled: CompiledDecoder)
    requires CompiledOk(compiled)
    ensures forall r | 0 <= r < |compiled.rules| ::
              (r in compiled.positionRules || r in compiled.movementRules || r in compiled.faultRules)
              && !(r in compiled.positionRules && r in compiled.movementRules)
              && !(r in compiled.positionRules && r in compiled.faultRules)
              && !(r in compiled.movementRules && r in compiled.faultRules)
    ensures |compiled.positionRules| + |compiled.movementRules| + |compiled.faultRules| == |compiled.rules|
  {
    hide CompiledGroupOk, LifecycleOk;
    var rules := compiled.rules;
    forall r | 0 <= r < |rules| ensures !rules[r].output.kind.OtherOutput? {
      assert CompiledRuleOk(rules[r], |compiled.inputIds|);
    }
    FamilySize(rules, Position, compiled.positionRules);
    FamilySize(rules, Movement, compiled.movementRules);
    FamilySize(rules, Fault, compiled.faultRules);
    KindsAddUp(rules);
  }

  function CountKind(rules: seq<CompiledRule>, kind: RuleOutputKind): nat {
    if rules == [] then 0
    else CountKind(rules[..|rules| - 1], kind) + if rules[|rules| - 1].output.kind == kind then 1 else 0
  }

  /** A rule of the family, listed last among the rules, is listed last in the family. */
  lemma FamilyWithoutLast(rules: seq<CompiledRule>, kind: RuleOutputKind, family: seq<nat>)
    requires IsFamily(rules, kind, family) && |rules| > 0 && rules[|rules| - 1].output.kind == kind
    ensures |family| > 0 && IsFamily(rules[..|rules| - 1], kind, family[..|family| - 1])
  {
    var n, m := |rules| - 1, |family| - 1;
    assert n in family;
    assert forall j | 0 <= j < m :: family[j] < family[m];
    assert family[m] == n;
    forall r | 0 <= r < n && rules[r].output.kind == kind ensures r in family[..m] {
      assert r in family;
    }
  }

  lemma FamilyFits(rules: seq<CompiledRule>, kind: RuleOutputKind, family: seq<nat>)
    requires IsFamily(rules, kind, family)
    ensures |family| <= |rules|
  {
    if |family| > 0 {
      Spread(family, |family| - 1);
    }
  }

  lemma {:induction false} Spread(family: seq<nat>, i: nat)
    requires i < |family| && forall j, k | 0 <= j < k < |family| :: family[j] < family[k]
    ensures i <= family[i]
  {
    if i > 0 {
      Spread(family, i - 1);
    }
  }

  lemma {:induction false} FamilySize(rules: seq<CompiledRule>, kind: RuleOutputKind, family: seq<nat>)
    requires IsFamily(rules, kind, family)
    ensures |family| == CountKind(rules, kind)
  {
    if rules == [] {
      FamilyFits(rules, kind, family);
    } else if rules[|rules| - 1].output.kind == kind {
      FamilyWithoutLast(rules, kind, family);
      FamilySize(rules[..|rules| - 1], kind, family[..|family| - 1]);
    } else {
      FamilySize(rules[..|rules| - 1], kind, family);
    }
  }

  lemma {:induction false} KindsAddUp(rules: seq<CompiledRule>)
    requires forall r | 0 <= r < |rules| :: !rules[r].output.kind.OtherOutput?
    ensures CountKind(rules, Position) + CountKind(rules, Movement) + CountKind(rules, Fault) == |rules|
  {
    if rules != [] {
      KindsAddUp(rules[..|rules| - 1]);
    }
  }

  /** Two outputs contradict each other: they are of one kind and differ in the value of that kind. */
  predicate Contradict(left: RuleOutputConfig, right: RuleOutputConfig) {
    || (left.kind == right.kind == Position && left.position != right.position)
    || (left.kind == right.kind == Movement && left.movement != right.movement)
    || (left.kind == right.kind == Fault && left.fault != right.fault)
  }

  /** No two compiled rules were written with one expression and outputs that contradict each other. */
  lemma NoSelfContradiction(source: DecoderConfig, compiled: CompiledDecoder, k: nat, l: nat)
    requires source.WellShaped() && Accepts(source) && CompiledFrom(source, compiled)
    requires k < l < |compiled.rules|
    ensures |compiled.rules| == |EnabledRules(source, source.ruleCount)|
    ensures var enabled := EnabledRules(source, source.ruleCount);
            SameExpression(source.rules[enabled[k]], source.rules[enabled[l]]) ==>
              !Contradict(compiled.rules[k].output, compiled.rules[l].output)
  {
    hide SourceRuleOk, SameExpression;
    var enabled := EnabledRules(source, source.ruleCount);
    assert enabled[k] < enabled[l];
    assert PairOk(source.rules[enabled[k]], source.rules[enabled[l]]);
    assert RuleFrom(source, source.rules[enabled[k]], compiled.rules[k]);
    assert RuleFrom(source, source.rules[enabled[l]], compiled.rules[l]);
  }

  /** A refusal because of conflicting rules always names two enabled rules with one expression and
      outputs that contradict each other. */
  lemma RefusedConflictsAreReal(source: DecoderConfig, error: CompileError)
    requires source.WellShaped() && Justified(source, error) && error.code == ConflictingExpression
    ensures exists i, j | 0 <= i < j < source.ruleCount && j < |source.rules| ::
              && source.rules[i].enabled && source.rules[j].enabled && source.rules[j].id == error.ruleId
              && SameExpression(source.rules[i], source.rules[j])
              && Contradict(source.rules[i].output, source.rules[j].output)
  {
    hide SameExpression;
    var i, j :| 0 <= i < j < source.ruleCount
      && source.rules[i].enabled && source.rules[j].enabled && source.rules[j].id == error.ruleId
      && SameExpression(source.rules[i], source.rules[j])
      && ConflictingOutput(source.rules[i].output, source.rules[j].output);
    assert Contradict(source.rules[i].output, source.rules[j].output);
  }

  /** What of a predicate is ever read. */
  datatype ReadPart =
    | ReadLevel(inputId: Byte, stable: StableLevelConfig)
    | ReadEdges(inputId: Byte, kind: PredicateKind, periodic: PeriodicEdgesConfig)

  function Read(p: PredicateConfig): ReadPart {
    if p.kind == StableLevel then ReadLevel(p.inputId, p.stable) else ReadEdges(p.inputId, p.kind, p.periodic)
  }

  ghost predicate InBounds(rule: RuleConfig)
    requires RuleShaped(rule)
  {
    && rule.groupCount <= MAX_GROUPS_PER_RULE
    && forall g | 0 <= g < rule.groupCount :: rule.groups[g].predicateCount <= MAX_PREDICATES_PER_GROUP
  }

  function ReadGroup(group: PredicateGroupConfig): seq<ReadPart>
    requires group.predicateCount <= |group.predicates|
  {
    seq(group.predicateCount, p requires 0 <= p < group.predicateCount => Read(group.predicates[p]))
  }

  /** Two rules have one expression exactly when what is read of them is the same, part by part. */
  lemma SameExpressionExactly(left: RuleConfig, right: RuleConfig)
    requires RuleShaped(left) && RuleShaped(right) && InBounds(left) && InBounds(right)
    ensures SameExpression(left, right)
            <==> && left.groupCount == right.groupCount
                 && forall g | 0 <= g < left.groupCount :: ReadGroup(left.groups[g]) == ReadGroup(right.groups[g])
  {
    if left.groupCount == right.groupCount {
      forall g | 0 <= g < left.groupCount
        ensures SameGroup(left.groups[g], right.groups[g])
           <==> ReadGroup(left.groups[g]) == ReadGroup(right.groups[g])
      {
        GroupsAlikeExactly(left.groups[g], right.groups[g]);
      }
    }
  }

  lemma GroupsAlikeExactly(left: PredicateGroupConfig, right: PredicateGroupConfig)
    requires |left.predicates| == |right.predicates| == MAX_PREDICATES_PER_GROUP
    requires left.predicateCount <= MAX_PREDICATES_PER_GROUP && right.predicateCount <= MAX_PREDICATES_PER_GROUP
    ensures SameGroup(left, right) <==> ReadGroup(left) == ReadGroup(right)
  {
    if ReadGroup(left) == ReadGroup(right) {
      assert |ReadGroup(left)| == |ReadGroup(right)|;
      forall p | 0 <= p < left.predicateCount
        ensures SamePredicate(left.predicates[p], right.predicates[p])
      {
        assert ReadGroup(left)[p] == Read(left.predicates[p]) && ReadGroup(right)[p] == Read(right.predicates[p]);
      }
    }
  }
}

/** JSON trees of a gate profile: what the decoder part prints to, and what it is parsed from.
    An object is the map from each member name to its first value, which is the one looked up. */
module ProfileTree {
  import opened Ticks
  import opened DecoderModel
  import opened AppConfigModel
  import opened PersistedConfig

  /** A C string: bytes, and no zero among them. */
  type CText = text: string | forall i | 0 <= i < |text| :: 0 < text[i] as int < 256

  datatype Json =
    | Object(members: map<string, Json>)
    | Array(items: seq<Json>)
    | Text(text: CText)
    | Number(value: real)
    | NotFinite
    | Bool(flag: bool)
    | Null

  // ---- Bytes and text ----

  function Chars(bytes: Bytes): CText
    requires NulFree(bytes)
  {
    seq(|bytes|, i requires 0 <= i < |bytes| => bytes[i] as char)
  }

  function Octets(text: CText): Bytes {
    seq(|text|, i requires 0 <= i < |text| => text[i] as int)
  }

  /** What `c_str` lets through. */
  function CString(bytes: Bytes): CText {
    Chars(ReadString(bytes))
  }

  // ---- Names of enumerators ----

  function LevelName(level: ActiveLevel): CText {
    if level == HighLevel then "high" else "low"
  }

  function PullName(pull: SensorPull): CText {
    if pull == NoPull then "none" else if pull == PullDown then "down" else "up"
  }

  function ExpiryName(expiry: MatchAgeExpiry): CText {
    if expiry == UnknownExpiry then "unknown"
    else if expiry == ObstructedExpiry then "obstructed"
    else if expiry == UnknownAndObstructedExpiry then "unknownAndObstructed"
    else "none"
  }

  function OutputName(output: RuleOutputConfig): CText {
    if output.kind == Position then (if output.position == Opened then "opened" else "closed")
    else if output.kind == Movement then
      if output.movement == Opening then "opening" else if output.movement == Closing then "closing" else "stopped"
    else "obstructed"
  }

  function ParseLevel(name: string): Option<ActiveLevel> {
    if name == "low" then Some(LowLevel) else if name == "high" then Some(HighLevel) else None
  }

  function ParsePull(name: string): Option<SensorPull> {
    if name == "none" then Some(NoPull)
    else if name == "up" then Some(PullUp)
    else if name == "down" then Some(PullDown)
    else None
  }

  function ParseExpiry(name: string): Option<MatchAgeExpiry> {
    if name == "none" then Some(NoExpiry)
    else if name == "unknown" then Some(UnknownExpiry)
    else if name == "obstructed" then Some(ObstructedExpiry)
    else if name == "unknownAndObstructed" then Some(UnknownAndObstructedExpiry)
    else None
  }

  /** Only the member the outcome is about is set; the others keep their defaults. */
  function ParseOutcome(name: string): Option<RuleOutputConfig> {
    var output := DEFAULT_RULE_OUTPUT;
    if name == "opened" || name == "closed" then
      Some(output.(kind := Position, position := if name == "opened" then Opened else Closed))
    else if name == "opening" || name == "closing" || name == "stopped" then
      Some(output.(kind := Movement,
                   movement := if name == "opening" then Opening else if name == "closing" then Closing else Stopped))
    else if name == "obstructed" then Some(output.(kind := Fault, fault := Obstructed))
    else None
  }

  // ---- Reading members ----

  function Member(json: Json, name: string): Option<Json> {
    if json.Object? && name in json.members then Some(json.members[name]) else None
  }

  /** A whole number within bounds. */
  function Whole(item: Option<Json>, minimum: int, maximum: int): (value: Option<int>)
    ensures value.Some? ==> minimum <= value.value <= maximum
  {
    if item.Some? && item.value.Number? && item.value.value.Floor as real == item.value.value
       && minimum <= item.value.value.Floor <= maximum
    then Some(item.value.value.Floor) else None
  }

  function TextOf(item: Option<Json>, maximum: nat): (text: Option<CText>)
    ensures text.Some? ==> |text.value| <= maximum
  {
    if item.Some? && item.value.Text? && |item.value.text| <= maximum then Some(item.value.text) else None
  }

  function Flagged(item: Option<Json>): Option<bool> {
    if item.Some? && item.value.Bool? then Some(item.value.flag) else None
  }

  // ---- Printing ----

  function Num(value: int): Json {
    Number(value as real)
  }

  function PrintedInput(input: FeedbackInputConfig): Json {
    Object(map["gpio" := Num(input.gpio), "activeLevel" := Text(LevelName(input.activeLevel)),
               "pull" := Text(PullName(input.pull)), "debounceMs" := Num(input.debounceMs)])
  }

  function PrintedDecoderInput(input: DecoderInputConfig): Json {
    Object(map["id" := Num(input.id), "label" := Text(CString(input.inputLabel)),
               "electrical" := PrintedInput(input.electrical)])
  }

  function PrintedPredicate(p: PredicateConfig): Json {
    if p.kind == StableLevel then
      Object(map["inputId" := Num(p.inputId), "kind" := Text("stableLevel"),
                 "level" := Num(if p.stable.level then 1 else 0),
                 "holdMs" := Num(p.stable.holdMs)])
    else
      Object(map["inputId" := Num(p.inputId), "kind" := Text("periodicEdges"),
                 "minimumIntervalMs" := Num(p.periodic.minimumIntervalMs),
                 "maximumIntervalMs" := Num(p.periodic.maximumIntervalMs),
                 "minimumEdges" := Num(p.periodic.minimumEdges),
                 "observationWindowMs" := Num(p.periodic.observationWindowMs),
                 "maximumGapMs" := Num(p.periodic.maximumGapMs)])
  }

  ghost function PrintedGroup(group: PredicateGroupConfig): Json
    requires GroupFits(group)
  {
    Array(seq(group.predicateCount, p requires 0 <= p < group.predicateCount => PrintedPredicate(group.predicates[p])))
  }

  function PrintedLifecycle(m: MovementLifecycleConfig): Json {
    Object(map["entryConfirmationMs" := Num(m.entryConfirmationMs), "lossConfirmationMs" := Num(m.lossConfirmationMs),
               "matchAgeLimitMs" := Num(m.matchAgeLimitMs), "matchAgeExpiry" := Text(ExpiryName(m.expiry))])
  }

  function RuleObject(rule: RuleConfig, text: Bytes, groups: seq<Json>): Json {
    Object(map["id" := Num(rule.id), "label" := Text(CString(text)), "enabled" := Bool(rule.enabled),
               "outcome" := Text(OutputName(rule.output)), "lifecycle" := PrintedLifecycle(rule.movement),
               "groups" := Array(groups)])
  }

  ghost function PrintedRule(rule: RuleConfig, text: Bytes): Json
    requires RuleFits(rule)
  {
    RuleObject(rule, text, seq(rule.groupCount, g requires 0 <= g < rule.groupCount => PrintedGroup(rule.groups[g])))
  }

  function DecoderObject(profile: DecoderProfile, inputs: seq<Json>, rules: seq<Json>): Json {
    Object(map["profile" := Text(if profile == CustomRules then "customRules" else "endpointPreset"),
               "inputs" := Array(inputs), "rules" := Array(rules)])
  }

  ghost function PrintedDecoder(decoder: FeedbackDecoderConfig): Json
    requires DecoderFits(decoder)
  {
    DecoderObject(
      decoder.profile,
      seq(decoder.inputCount, i requires 0 <= i < decoder.inputCount => PrintedDecoderInput(decoder.inputs[i])),
      seq(decoder.rules.ruleCount, r requires 0 <= r < decoder.rules.ruleCount =>
        PrintedRule(decoder.rules.rules[r], decoder.ruleLabels[r])))
  }

  // ---- Parsing ----

  function ParsedInput(json: Json): Option<FeedbackInputConfig> {
    var gpio := Whole(Member(json, "gpio"), -1, 39);
    var level := TextOf(Member(json, "activeLevel"), 4);
    var pull := TextOf(Member(json, "pull"), 4);
    var debounce := Whole(Member(json, "debounceMs"), 0, 10000);
    if gpio.None? || level.None? || pull.None? || debounce.None? then None
    else if ParseLevel(level.value).None? || ParsePull(pull.value).None? then None
    else Some(FeedbackInputConfig(gpio.value, ParseLevel(level.value).value, ParsePull(pull.value).value,
                                  debounce.value))
  }

  function ParsedDecoderInput(json: Json): Option<DecoderInputConfig> {
    var id := Whole(Member(json, "id"), 0, 255);
    var text := TextOf(Member(json, "label"), 32);
    var electrical := Member(json, "electrical");
    if id.None? || text.None? || text.value == "" || electrical.None? || ParsedInput(electrical.value).None? then None
    else Some(DecoderInputConfig(id.value, Octets(text.value), ParsedInput(electrical.value).value))
  }

  function ParsedStable(json: Json): Option<StableLevelConfig> {
    var level := Whole(Member(json, "level"), 0, 1);
    var hold := Whole(Member(json, "holdMs"), 1, MAX_DURATION_MS);
    if level.None? || hold.None? then None else Some(StableLevelConfig(level.value != 0, hold.value))
  }

  function ParsedPeriodic(json: Json): Option<PeriodicEdgesConfig> {
    var minimum := Whole(Member(json, "minimumIntervalMs"), 1, MAX_DURATION_MS);
    var maximum := Whole(Member(json, "maximumIntervalMs"), 1, MAX_DURATION_MS);
    var edges := Whole(Member(json, "minimumEdges"), 2, MAX_EDGES_PER_INPUT);
    var window := Whole(Member(json, "observationWindowMs"), 1, MAX_DURATION_MS);
    var gap := Whole(Member(json, "maximumGapMs"), 1, MAX_DURATION_MS);
    if minimum.None? || maximum.None? || edges.None? || window.None? || gap.None? then None
    else Some(PeriodicEdgesConfig(minimum.value, maximum.value, edges.value, window.value, gap.value))
  }

  /** Only the member the kind reads is set. */
  function ParsedPredicate(json: Json): Option<PredicateConfig> {
    var kind := TextOf(Member(json, "kind"), 32);
    var inputId := Whole(Member(json, "inputId"), 0, 255);
    if kind.None? || inputId.None? then None
    else if kind.value == "stableLevel" then
      if ParsedStable(json).None? then None
      else Some(DEFAULT_PREDICATE.(inputId := inputId.value, kind := StableLevel, stable := ParsedStable(json).value))
    else if kind.value == "periodicEdges" then
      if ParsedPeriodic(json).None? then None
      else Some(DEFAULT_PREDICATE.(inputId := inputId.value, kind := PeriodicEdges,
                                   periodic := ParsedPeriodic(json).value))
    else None
  }

  ghost predicate GroupReadable(json: Json) {
    && json.Array? && 1 <= |json.items| <= MAX_PREDICATES_PER_GROUP
    && forall p | 0 <= p < |json.items| :: ParsedPredicate(json.items[p]).Some?
  }

  ghost function ParsedGroup(json: Json): (group: PredicateGroupConfig)
    requires GroupReadable(json)
  {
    PredicateGroupConfig(
      seq(MAX_PREDICATES_PER_GROUP, p requires 0 <= p < MAX_PREDICATES_PER_GROUP =>
        if p < |json.items| then ParsedPredicate(json.items[p]).value else DEFAULT_PREDICATE),
      |json.items|)
  }

  function ParsedLifecycle(json: Json): Option<MovementLifecycleConfig> {
    var entry := Whole(Member(json, "entryConfirmationMs"), 0, MAX_DURATION_MS);
    var loss := Whole(Member(json, "lossConfirmationMs"), 0, MAX_DURATION_MS);
    var age := Whole(Member(json, "matchAgeLimitMs"), 0, MAX_DURATION_MS);
    var expiry := TextOf(Member(json, "matchAgeExpiry"), 32);
    if entry.None? || loss.None? || age.None? || expiry.None? || ParseExpiry(expiry.value).None? then None
    else Some(MovementLifecycleConfig(entry.value, loss.value, age.value, ParseExpiry(expiry.value).value))
  }

  /** Everything of a rule but its groups. */
  datatype RuleHead = RuleHead(id: Byte, text: CText, enabled: bool, output: RuleOutputConfig,
      movement: MovementLifecycleConfig)

  function ParsedHead(json: Json): Option<RuleHead> {
    var id := Whole(Member(json, "id"), 0, 255);
    var text := TextOf(Member(json, "label"), 32);
    var enabled := Flagged(Member(json, "enabled"));
    var outcome := TextOf(Member(json, "outcome"), 32);
    var lifecycle := Member(json, "lifecycle");
    if id.None? || text.None? || text.value == "" || enabled.None? || outcome.None? || lifecycle.None? then None
    else if ParsedLifecycle(lifecycle.value).None? || ParseOutcome(outcome.value).None? then None
    else Some(RuleHead(id.value, text.value, enabled.value, ParseOutcome(outcome.value).value,
                       ParsedLifecycle(lifecycle.value).value))
  }

  ghost predicate RuleReadable(json: Json) {
    && ParsedHead(json).Some?
    && Member(json, "groups").Some? && Member(json, "groups").value.Array?
    && var groups := Member(json, "groups").value.items;
       1 <= |groups| <= MAX_GROUPS_PER_RULE && forall g | 0 <= g < |groups| :: GroupReadable(groups[g])
  }

  ghost function ParsedRule(json: Json): RuleConfig
    requires RuleReadable(json)
  {
    var (head, groups) := (ParsedHead(json).value, Member(json, "groups").value.items);
    RuleConfig(
      head.id, head.enabled, head.output,
      seq(MAX_GROUPS_PER_RULE, g requires 0 <= g < MAX_GROUPS_PER_RULE =>
        if g < |groups| then ParsedGroup(groups[g]) else DEFAULT_GROUP),
      |groups|, head.movement)
  }

  function ParseProfile(name: string): Option<DecoderProfile> {
    if name == "endpointPreset" then Some(EndpointPreset) else if name == "customRules" then Some(CustomRules) else None
  }

  function Items(json: Json, name: string): Option<seq<Json>> {
    var item := Member(json, name);
    if item.Some? && item.value.Array? then Some(item.value.items) else None
  }

  /** A tree that `parse_decoder` accepts. */
  ghost predicate Readable(json: Json) {
    var (profile, inputs, rules) := (TextOf(Member(json, "profile"), 32), Items(json, "inputs"), Items(json, "rules"));
    && profile.Some? && ParseProfile(profile.value).Some?
    && inputs.Some? && |inputs.value| <= MAX_INPUTS
    && rules.Some? && |rules.value| <= MAX_RULES
    && (forall i | 0 <= i < |inputs.value| :: ParsedDecoderInput(inputs.value[i]).Some?)
    && (forall r | 0 <= r < |rules.value| :: RuleReadable(rules.value[r]))
  }

  /** The configuration `parse_decoder` reads from it. */
  ghost function ParsedDecoder(json: Json): FeedbackDecoderConfig
    requires Readable(json)
  {
    var (inputs, rules) := (Items(json, "inputs").value, Items(json, "rules").value);
    FeedbackDecoderConfig(
      ParseProfile(TextOf(Member(json, "profile"), 32).value).value,
      seq(MAX_INPUTS, i requires 0 <= i < MAX_INPUTS =>
        if i < |inputs| then ParsedDecoderInput(inputs[i]).value else DEFAULT_DECODER_INPUT),
      |inputs|,
      DecoderConfig(
        seq(MAX_INPUTS, i requires 0 <= i < MAX_INPUTS =>
          if i < |inputs| then ParsedDecoderInput(inputs[i]).value.id else 0),
        |inputs|,
        seq(MAX_RULES, r requires 0 <= r < MAX_RULES => if r < |rules| then ParsedRule(rules[r]) else DEFAULT_RULE),
        |rules|),
      seq(MAX_RULES, r requires 0 <= r < MAX_RULES =>
        if r < |rules| then Octets(ParsedHead(rules[r]).value.text) else []))
  }
}

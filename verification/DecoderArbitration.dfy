/** The public result does not depend on the order in which rules are listed. */
module DecoderArbitration {
  import opened Ticks
  import opened DecoderModel
  import opened DecoderEvaluation

  // ---- What counting votes means ----

  ghost predicate Voted<V(!new)>(votes: seq<Option<V>>, v: V) {
    Some(v) in votes
  }

  ghost predicate TallyMeans<V(!new)>(votes: seq<Option<V>>, tally: Tally<V>) {
    && (tally.seen <==> exists v :: Voted(votes, v))
    && (tally.ambiguous <==> exists v, w :: v != w && Voted(votes, v) && Voted(votes, w))
    && (tally.seen ==> Voted(votes, tally.value))
  }

  lemma {:induction false} CountingMeans<V(!new)>(votes: seq<Option<V>>, idle: V)
    ensures TallyMeans(votes, CountVotes(votes, idle))
  {
    if votes != [] {
      var n := |votes| - 1;
      var (rest, last) := (votes[..n], votes[n]);
      CountingMeans(rest, idle);
      assert votes == rest + [last];
      assert forall v :: Voted(votes, v) <==> Voted(rest, v) || last == Some(v);
      var before := CountVotes(rest, idle);
      if last.Some? {
        assert Voted(votes, last.value);
        if before.seen && before.value != last.value {
          assert Voted(votes, before.value);
        }
      }
    }
  }

  /** Two vote lists in which the same values occur are counted alike. */
  lemma SameVotesSameTally<V(!new)>(a: seq<Option<V>>, b: seq<Option<V>>, idle: V)
    requires forall v :: Voted(a, v) <==> Voted(b, v)
    ensures var (s, t) := (CountVotes(a, idle), CountVotes(b, idle));
            && s.seen == t.seen && s.ambiguous == t.ambiguous
            && (s.seen && !s.ambiguous ==> s.value == t.value)
  {
    CountingMeans(a, idle);
    CountingMeans(b, idle);
  }

  ghost predicate OnlyVoted<V(!new)>(votes: seq<Option<V>>, v: V) {
    Voted(votes, v) && forall w :: Voted(votes, w) ==> w == v
  }

  /** A count is decided exactly when one value has been voted for, and by that value. */
  lemma CountDecides<V(!new)>(votes: seq<Option<V>>, idle: V)
    ensures var t := CountVotes(votes, idle);
            && (forall v :: t.seen && !t.ambiguous && t.value == v <==> OnlyVoted(votes, v))
            && (t.seen && !t.ambiguous <==> exists v :: OnlyVoted(votes, v))
            && (!t.seen <==> forall v :: !Voted(votes, v))
            && (t.ambiguous ==> t.seen)
  {
    hide Voted, CountVotes;
    CountingMeans(votes, idle);
    var t := CountVotes(votes, idle);
    if t.seen && !t.ambiguous {
      assert OnlyVoted(votes, t.value);
    }
  }

  // ---- Reordering ----

  /** `b` lists the rules of `a` in another order: place `i` of `b` holds rule `order[i]` of `a`. */
  ghost predicate Reorders(a: CompiledDecoder, b: CompiledDecoder, order: seq<nat>) {
    && CompiledOk(a) && CompiledOk(b)
    && a.inputIds == b.inputIds
    && |order| == |a.rules| == |b.rules|
    && (forall i | 0 <= i < |order| :: order[i] < |a.rules| && b.rules[i] == a.rules[order[i]])
    && (forall r | 0 <= r < |a.rules| :: r in order)
  }

  ghost predicate Follows<T(!new)>(a: seq<T>, b: seq<T>, order: seq<nat>) {
    && |order| == |a| == |b|
    && forall i | 0 <= i < |order| :: order[i] < |a| && b[i] == a[order[i]]
  }

  /** Everything a consumer may act on. The values of withheld channels do not count. */
  ghost predicate SamePublic(s: DecoderResult, t: DecoderResult) {
    && s.positionValid == t.positionValid && (s.positionValid ==> s.position == t.position)
    && s.movementValid == t.movementValid && (s.movementValid ==> s.movement == t.movement)
    && s.obstructed == t.obstructed && s.movementWithdrawnByAge == t.movementWithdrawnByAge
    && s.health == t.health
  }

  ghost predicate PositionAsserted(decoder: CompiledDecoder, expressions: seq<bool>, v: PositionValue)
    requires |expressions| == |decoder.rules|
  {
    exists r | 0 <= r < |decoder.rules| ::
      decoder.rules[r].output.kind == Position && expressions[r] && decoder.rules[r].output.position == v
  }

  ghost predicate MovementAsserted(decoder: CompiledDecoder, movement: seq<MovementRuleState>, v: MovementValue)
    requires |movement| == |decoder.rules|
  {
    exists r | 0 <= r < |decoder.rules| ::
      && decoder.rules[r].output.kind == Movement && movement[r].phase in {Matched, LossPending}
      && decoder.rules[r].output.movement == v
  }

  /** Some movement has been withdrawn because its match grew too old. */
  ghost predicate Overaged(decoder: CompiledDecoder, movement: seq<MovementRuleState>)
    requires |movement| == |decoder.rules|
  {
    exists r | 0 <= r < |decoder.rules| :: decoder.rules[r].output.kind == Movement && movement[r].phase == Expired
  }

  /** A fault rule reports an obstruction, or an overaged movement counts as one. */
  ghost predicate ObstructionAsserted(decoder: CompiledDecoder, expressions: seq<bool>,
      movement: seq<MovementRuleState>)
    requires |expressions| == |movement| == |decoder.rules|
  {
    exists r | 0 <= r < |decoder.rules| ::
      || (&& decoder.rules[r].output.kind == Fault && expressions[r]
          && decoder.rules[r].output.fault == Obstructed)
      || (&& decoder.rules[r].output.kind == Movement && movement[r].phase == Expired
          && decoder.rules[r].movement.expiry in {ObstructedExpiry, UnknownAndObstructedExpiry})
  }

  /** A value is voted for exactly when some rule of the family asserts it: the index arrays lose nothing. */
  lemma PositionVotesMean(decoder: CompiledDecoder, expressions: seq<bool>, v: PositionValue)
    requires CompiledOk(decoder) && |expressions| == |decoder.rules|
    ensures Voted(PositionVotes(decoder, expressions), v) <==> PositionAsserted(decoder, expressions, v)
  {
    hide RulesOk;
    var votes := PositionVotes(decoder, expressions);
    if Voted(votes, v) {
      var i :| 0 <= i < |votes| && votes[i] == Some(v);
      assert decoder.rules[decoder.positionRules[i]].output.kind == Position;
    }
    if PositionAsserted(decoder, expressions, v) {
      var r :| 0 <= r < |decoder.rules| && decoder.rules[r].output.kind == Position && expressions[r]
               && decoder.rules[r].output.position == v;
      var i :| 0 <= i < |decoder.positionRules| && decoder.positionRules[i] == r;
      assert votes[i] == Some(v);
    }
  }

  lemma MovementVotesMean(decoder: CompiledDecoder, movement: seq<MovementRuleState>, v: MovementValue)
    requires CompiledOk(decoder) && |movement| == |decoder.rules|
    ensures Voted(MovementVotes(decoder, movement), v) <==> MovementAsserted(decoder, movement, v)
  {
    hide RulesOk;
    var votes := MovementVotes(decoder, movement);
    if Voted(votes, v) {
      var i :| 0 <= i < |votes| && votes[i] == Some(v);
      assert decoder.rules[decoder.movementRules[i]].output.kind == Movement;
    }
    if MovementAsserted(decoder, movement, v) {
      var r :| 0 <= r < |decoder.rules| && decoder.rules[r].output.kind == Movement
               && movement[r].phase in {Matched, LossPending} && decoder.rules[r].output.movement == v;
      var i :| 0 <= i < |decoder.movementRules| && decoder.movementRules[i] == r;
      assert votes[i] == Some(v);
    }
  }

  ghost predicate OnlyPosition(decoder: CompiledDecoder, expressions: seq<bool>, v: PositionValue)
    requires |expressions| == |decoder.rules|
  {
    PositionAsserted(decoder, expressions, v) && forall w :: PositionAsserted(decoder, expressions, w) ==> w == v
  }

  ghost predicate OnlyMovement(decoder: CompiledDecoder, movement: seq<MovementRuleState>, v: MovementValue)
    requires |movement| == |decoder.rules|
  {
    MovementAsserted(decoder, movement, v) && forall w :: MovementAsserted(decoder, movement, w) ==> w == v
  }

  lemma PositionsDecide(decoder: CompiledDecoder, expressions: seq<bool>)
    requires CompiledOk(decoder) && |expressions| == |decoder.rules|
    ensures var t := CountVotes(PositionVotes(decoder, expressions), Opened);
            && (forall v :: t.seen && !t.ambiguous && t.value == v <==> OnlyPosition(decoder, expressions, v))
            && (t.seen && !t.ambiguous <==> exists v :: OnlyPosition(decoder, expressions, v))
            && (!t.seen <==> forall v :: !PositionAsserted(decoder, expressions, v))
            && (t.ambiguous
                <==> (exists v :: PositionAsserted(decoder, expressions, v))
                     && !exists v :: OnlyPosition(decoder, expressions, v))
  {
    var votes := PositionVotes(decoder, expressions);
    forall v ensures Voted(votes, v) <==> PositionAsserted(decoder, expressions, v) {
      PositionVotesMean(decoder, expressions, v);
    }
    CountDecides(votes, Opened);
    hide CompiledOk, Voted, PositionAsserted, CountVotes, PositionVotes;
    assert forall v :: OnlyVoted(votes, v) <==> OnlyPosition(decoder, expressions, v);
  }

  lemma MovementsDecide(decoder: CompiledDecoder, movement: seq<MovementRuleState>)
    requires CompiledOk(decoder) && |movement| == |decoder.rules|
    ensures var t := CountVotes(MovementVotes(decoder, movement), Stopped);
            && (forall v :: t.seen && !t.ambiguous && t.value == v <==> OnlyMovement(decoder, movement, v))
            && (t.ambiguous
                <==> (exists v :: MovementAsserted(decoder, movement, v))
                     && !exists v :: OnlyMovement(decoder, movement, v))
  {
    var votes := MovementVotes(decoder, movement);
    forall v ensures Voted(votes, v) <==> MovementAsserted(decoder, movement, v) {
      MovementVotesMean(decoder, movement, v);
    }
    CountDecides(votes, Stopped);
    hide CompiledOk, Voted, MovementAsserted, CountVotes, MovementVotes;
    assert forall v :: OnlyVoted(votes, v) <==> OnlyMovement(decoder, movement, v);
  }

  /** What is published: a position exactly when one value, and no other, is asserted; a movement
      likewise, and only while no position is asserted at all; an obstruction unless a position is
      certain; and a health that names the first thing amiss. */
  lemma ArbitrationMeans(decoder: CompiledDecoder, expressions: seq<bool>, movement: seq<MovementRuleState>,
                         inputs: seq<InputView>, healthy: bool, generation: Tick)
    requires CompiledOk(decoder) && |expressions| == |movement| == |decoder.rules|
    ensures var r := Arbitrate(decoder, expressions, movement, inputs, healthy, generation);
            var positionSeen := exists v :: PositionAsserted(decoder, expressions, v);
            var positionCertain := exists v :: OnlyPosition(decoder, expressions, v);
            var movementSeen := exists v :: MovementAsserted(decoder, movement, v);
            var movementCertain := exists v :: OnlyMovement(decoder, movement, v);
            && (forall v :: r.positionValid && r.position == v <==> healthy && OnlyPosition(decoder, expressions, v))
            && (forall v ::
                  r.movementValid && r.movement == v
                  <==> healthy && OnlyMovement(decoder, movement, v) && !positionSeen)
            && (r.obstructed
                <==> ObstructionAsserted(decoder, expressions, movement) && !positionCertain)
            && (r.movementWithdrawnByAge <==> Overaged(decoder, movement))
            && r.health == (if !healthy then MonitoringFailed
                            else if positionSeen && !positionCertain then AmbiguousPosition
                            else if movementSeen && !movementCertain then AmbiguousMovement
                            else if inputs == [] || exists i | 0 <= i < |inputs| :: !inputs[i].valid
                            then GatheringEvidence else Healthy)
  {
    PositionsDecide(decoder, expressions);
    MovementsDecide(decoder, movement);
    ObstructionsMean(decoder, expressions, movement);
    hide CompiledOk, PositionAsserted, OnlyPosition, MovementAsserted, OnlyMovement, CountVotes, PositionVotes,
      MovementVotes, AnyFault, AnyExpired, AnyAgeObstruction, ObstructionAsserted, Overaged;
  }

  lemma ObstructionsMean(decoder: CompiledDecoder, expressions: seq<bool>, movement: seq<MovementRuleState>)
    requires |expressions| == |movement| == |decoder.rules|
    ensures AnyExpired(decoder, movement) <==> Overaged(decoder, movement)
    ensures AnyFault(decoder, expressions) || AnyAgeObstruction(decoder, movement)
            <==> ObstructionAsserted(decoder, expressions, movement)
  {
    if Overaged(decoder, movement) {
      var r :| 0 <= r < |decoder.rules| && decoder.rules[r].output.kind == Movement && movement[r].phase == Expired;
      assert ExpiredRule(decoder, movement, r);
    }
    if ObstructionAsserted(decoder, expressions, movement) {
      var r :| 0 <= r < |decoder.rules|
               && (|| (&& decoder.rules[r].output.kind == Fault && expressions[r]
                       && decoder.rules[r].output.fault == Obstructed)
                   || (&& decoder.rules[r].output.kind == Movement && movement[r].phase == Expired
                       && decoder.rules[r].movement.expiry in {ObstructedExpiry, UnknownAndObstructedExpiry}));
      assert ObstructingRule(decoder, expressions, r)
             || (ExpiredRule(decoder, movement, r) && ObstructsOnExpiry(decoder.rules[r].movement));
    }
  }

  lemma PlacesCorrespond(a: CompiledDecoder, b: CompiledDecoder, order: seq<nat>, r: nat) returns (i: nat)
    requires Reorders(a, b, order) && r < |a.rules|
    ensures i < |b.rules| && order[i] == r && b.rules[i] == a.rules[r]
  {
    hide CompiledOk;
    assert r in order;
    i :| 0 <= i < |order| && order[i] == r;
  }

  lemma SamePositions(a: CompiledDecoder, b: CompiledDecoder, order: seq<nat>, expressionsA: seq<bool>,
      expressionsB: seq<bool>, v: PositionValue)
    requires Reorders(a, b, order) && Follows(expressionsA, expressionsB, order)
    ensures PositionAsserted(a, expressionsA, v) <==> PositionAsserted(b, expressionsB, v)
  {
    hide CompiledOk;
    if PositionAsserted(a, expressionsA, v) {
      var r :| 0 <= r < |a.rules| && a.rules[r].output.kind == Position && expressionsA[r]
               && a.rules[r].output.position == v;
      var i := PlacesCorrespond(a, b, order, r);
      assert expressionsB[i];
    }
    if PositionAsserted(b, expressionsB, v) {
      var i :| 0 <= i < |b.rules| && b.rules[i].output.kind == Position && expressionsB[i]
               && b.rules[i].output.position == v;
      assert expressionsA[order[i]];
    }
  }

  lemma SameMovements(a: CompiledDecoder, b: CompiledDecoder, order: seq<nat>, movementA: seq<MovementRuleState>,
      movementB: seq<MovementRuleState>, v: MovementValue)
    requires Reorders(a, b, order) && Follows(movementA, movementB, order)
    ensures MovementAsserted(a, movementA, v) <==> MovementAsserted(b, movementB, v)
  {
    hide CompiledOk;
    if MovementAsserted(a, movementA, v) {
      var r :| 0 <= r < |a.rules| && a.rules[r].output.kind == Movement
               && movementA[r].phase in {Matched, LossPending} && a.rules[r].output.movement == v;
      var i := PlacesCorrespond(a, b, order, r);
      assert movementB[i] == movementA[r];
    }
    if MovementAsserted(b, movementB, v) {
      var i :| 0 <= i < |b.rules| && b.rules[i].output.kind == Movement
               && movementB[i].phase in {Matched, LossPending} && b.rules[i].output.movement == v;
      assert movementA[order[i]] == movementB[i];
    }
  }

  lemma SameFlags(a: CompiledDecoder, b: CompiledDecoder, order: seq<nat>, expressionsA: seq<bool>,
      expressionsB: seq<bool>, movementA: seq<MovementRuleState>, movementB: seq<MovementRuleState>)
    requires Reorders(a, b, order) && Follows(expressionsA, expressionsB, order) && Follows(movementA, movementB, order)
    ensures AnyExpired(a, movementA) == AnyExpired(b, movementB)
    ensures AnyAgeObstruction(a, movementA) == AnyAgeObstruction(b, movementB)
    ensures AnyFault(a, expressionsA) == AnyFault(b, expressionsB)
  {
    hide CompiledOk;
    forall i | 0 <= i < |b.rules|
      ensures order[i] < |a.rules| && b.rules[i] == a.rules[order[i]]
      ensures ExpiredRule(b, movementB, i) == ExpiredRule(a, movementA, order[i])
      ensures ObstructingRule(b, expressionsB, i) == ObstructingRule(a, expressionsA, order[i])
    {
    }
    forall r | 0 <= r < |a.rules|
      ensures exists i :: 0 <= i < |b.rules| && b.rules[i] == a.rules[r]
                && ExpiredRule(b, movementB, i) == ExpiredRule(a, movementA, r)
                && ObstructingRule(b, expressionsB, i) == ObstructingRule(a, expressionsA, r)
    {
      var i := PlacesCorrespond(a, b, order, r);
      assert b.rules[i] == a.rules[r];
    }
    hide ExpiredRule, ObstructingRule;
  }

  lemma VotesFollow(a: CompiledDecoder, b: CompiledDecoder, order: seq<nat>, expressionsA: seq<bool>,
                    expressionsB: seq<bool>, movementA: seq<MovementRuleState>, movementB: seq<MovementRuleState>)
    requires Reorders(a, b, order) && Follows(expressionsA, expressionsB, order) && Follows(movementA, movementB, order)
    ensures forall v :: Voted(PositionVotes(a, expressionsA), v) <==> Voted(PositionVotes(b, expressionsB), v)
    ensures forall v :: Voted(MovementVotes(a, movementA), v) <==> Voted(MovementVotes(b, movementB), v)
  {
    hide CompiledOk, Voted, PositionAsserted, MovementAsserted, PositionVotes, MovementVotes;
    forall v ensures Voted(PositionVotes(a, expressionsA), v) <==> Voted(PositionVotes(b, expressionsB), v) {
      SamePositions(a, b, order, expressionsA, expressionsB, v);
      PositionVotesMean(a, expressionsA, v);
      PositionVotesMean(b, expressionsB, v);
    }
    forall v ensures Voted(MovementVotes(a, movementA), v) <==> Voted(MovementVotes(b, movementB), v) {
      SameMovements(a, b, order, movementA, movementB, v);
      MovementVotesMean(a, movementA, v);
      MovementVotesMean(b, movementB, v);
    }
  }

  /** Arbitration sees a set of assertions, not a list. */
  lemma ArbitrationIgnoresOrder(a: CompiledDecoder, b: CompiledDecoder, order: seq<nat>, expressionsA: seq<bool>,
                                expressionsB: seq<bool>, movementA: seq<MovementRuleState>,
                                movementB: seq<MovementRuleState>, inputs: seq<InputView>, healthy: bool,
                                generationA: Tick, generationB: Tick)
    requires Reorders(a, b, order) && Follows(expressionsA, expressionsB, order) && Follows(movementA, movementB, order)
    ensures SamePublic(Arbitrate(a, expressionsA, movementA, inputs, healthy, generationA),
                       Arbitrate(b, expressionsB, movementB, inputs, healthy, generationB))
  {
    hide CompiledOk, Voted, AnyExpired, AnyFault, AnyAgeObstruction, CountVotes, PositionVotes, MovementVotes,
      AllInputsValid;
    VotesFollow(a, b, order, expressionsA, expressionsB, movementA, movementB);
    SameFlags(a, b, order, expressionsA, expressionsB, movementA, movementB);
    SameVotesSameTally(PositionVotes(a, expressionsA), PositionVotes(b, expressionsB), Opened);
    SameVotesSameTally(MovementVotes(a, movementA), MovementVotes(b, movementB), Stopped);
  }

  // ---- Wake-ups ----

  ghost predicate ExpressionAwaits(clock: Clock, rules: seq<CompiledRule>, inputs: seq<InputView>, now: int, r: nat,
      c: int)
    requires RulesOk(rules, |inputs|) && r < |rules|
  {
    c in RuleCandidates(clock, rules[r], inputs, now, |rules[r].groups|)
  }

  predicate LifecycleAwaits(clock: Clock, decoder: CompiledDecoder, expressions: seq<bool>,
      movement: seq<MovementRuleState>, r: nat, c: int)
    requires r < |expressions| == |movement| == |decoder.rules|
  {
    c in LifecycleRuleCandidates(clock, decoder.rules[r].movement, expressions[r], movement[r])
  }

  /** An instant is listed exactly when some rule awaits it. */
  lemma {:induction false} ExpressionCandidatesMean(clock: Clock, rules: seq<CompiledRule>, inputs: seq<InputView>,
      now: int, n: nat, c: int)
    requires RulesOk(rules, |inputs|) && n <= |rules|
    ensures c in ExpressionCandidates(clock, rules, inputs, now, n)
            <==> exists r | 0 <= r < n :: ExpressionAwaits(clock, rules, inputs, now, r, c)
  {
    hide CompiledRuleOk, RuleCandidates;
    if n > 0 {
      ExpressionCandidatesMean(clock, rules, inputs, now, n - 1, c);
      assert ExpressionAwaits(clock, rules, inputs, now, n - 1, c)
          <==> c in RuleCandidates(clock, rules[n - 1], inputs, now, |rules[n - 1].groups|);
    }
  }

  lemma {:induction false} LifecycleCandidatesMean(clock: Clock, decoder: CompiledDecoder, expressions: seq<bool>,
      movement: seq<MovementRuleState>, n: nat, c: int)
    requires |expressions| == |movement| == |decoder.rules|
    requires n <= |decoder.movementRules| && forall i | 0 <= i < n :: decoder.movementRules[i] < |decoder.rules|
    ensures c in LifecycleCandidates(clock, decoder, expressions, movement, n)
            <==> exists i | 0 <= i < n ::
                   LifecycleAwaits(clock, decoder, expressions, movement, decoder.movementRules[i], c)
  {
    hide LifecycleRuleCandidates;
    if n > 0 {
      LifecycleCandidatesMean(clock, decoder, expressions, movement, n - 1, c);
      assert LifecycleAwaits(clock, decoder, expressions, movement, decoder.movementRules[n - 1], c)
          <==> c in LifecycleRuleCandidates(clock, decoder.rules[decoder.movementRules[n - 1]].movement,
                                            expressions[decoder.movementRules[n - 1]],
                                            movement[decoder.movementRules[n - 1]]);
    }
  }

  /** Some rule awaits the instant, be it with its expression or with its lifecycle. */
  ghost predicate Awaited(clock: Clock, decoder: CompiledDecoder, inputs: seq<InputView>,
      movement: seq<MovementRuleState>, now: int, c: int)
    requires CompiledOk(decoder) && |inputs| == |decoder.inputIds| && |movement| == |decoder.rules|
  {
    var expressions := Expressions(clock, decoder.rules, inputs, now);
    exists r | 0 <= r < |decoder.rules| ::
      || ExpressionAwaits(clock, decoder.rules, inputs, now, r, c)
      || (IsMovement(decoder, r) && LifecycleAwaits(clock, decoder, expressions, movement, r, c))
  }

  lemma CandidatesMean(clock: Clock, decoder: CompiledDecoder, inputs: seq<InputView>,
      movement: seq<MovementRuleState>, now: int, c: int)
    requires CompiledOk(decoder) && |inputs| == |decoder.inputIds| && |movement| == |decoder.rules|
    ensures c in AllCandidates(clock, decoder, inputs, movement, now)
            <==> Awaited(clock, decoder, inputs, movement, now, c)
  {
    hide RulesOk, ExpressionAwaits, LifecycleAwaits, Expressions, ExpressionCandidates, LifecycleCandidates;
    RulesOfDecoder(decoder);
    var expressions := Expressions(clock, decoder.rules, inputs, now);
    ExpressionCandidatesMean(clock, decoder.rules, inputs, now, |decoder.rules|, c);
    LifecycleCandidatesMean(clock, decoder, expressions, movement, |decoder.movementRules|, c);
    forall r | 0 <= r < |decoder.rules| && IsMovement(decoder, r)
      ensures exists i :: 0 <= i < |decoder.movementRules| && decoder.movementRules[i] == r
    {
      assert r in decoder.movementRules;
    }
  }

  /** Every rule of `a` is listed in `b`, in the same phase. */
  ghost predicate ListedIn(a: CompiledDecoder, b: CompiledDecoder, movementA: seq<MovementRuleState>,
      movementB: seq<MovementRuleState>)
    requires |movementA| == |a.rules| && |movementB| == |b.rules|
  {
    forall r | 0 <= r < |a.rules| :: Lists(b, movementB, a.rules[r], movementA[r])
  }

  ghost predicate Lists(decoder: CompiledDecoder, movement: seq<MovementRuleState>, rule: CompiledRule,
      s: MovementRuleState)
    requires |movement| == |decoder.rules|
  {
    exists i | 0 <= i < |decoder.rules| :: decoder.rules[i] == rule && movement[i] == s
  }

  lemma AwaitedCarriesOver(clock: Clock, a: CompiledDecoder, b: CompiledDecoder, movementA: seq<MovementRuleState>,
      movementB: seq<MovementRuleState>, inputs: seq<InputView>, now: int, c: int)
    requires CompiledOk(a) && CompiledOk(b) && |inputs| == |a.inputIds| == |b.inputIds|
    requires |movementA| == |a.rules| && |movementB| == |b.rules| && ListedIn(a, b, movementA, movementB)
    requires Awaited(clock, a, inputs, movementA, now, c)
    ensures Awaited(clock, b, inputs, movementB, now, c)
  {
    hide RulesOk, IsFamily, RuleCandidates, RuleValue, LifecycleRuleCandidates;
    RulesOfBoth(a, b);
    var expressionsA := Expressions(clock, a.rules, inputs, now);
    var expressionsB := Expressions(clock, b.rules, inputs, now);
    var r :| 0 <= r < |a.rules|
      && (ExpressionAwaits(clock, a.rules, inputs, now, r, c)
          || (IsMovement(a, r) && LifecycleAwaits(clock, a, expressionsA, movementA, r, c)));
    assert Lists(b, movementB, a.rules[r], movementA[r]);
    var i :| 0 <= i < |b.rules| && b.rules[i] == a.rules[r] && movementB[i] == movementA[r];
    assert expressionsB[i] == expressionsA[r];
    assert ExpressionAwaits(clock, b.rules, inputs, now, i, c) == ExpressionAwaits(clock, a.rules, inputs, now, r, c);
    assert LifecycleAwaits(clock, b, expressionsB, movementB, i, c)
        == LifecycleAwaits(clock, a, expressionsA, movementA, r, c);
  }

  lemma ReordersLists(a: CompiledDecoder, b: CompiledDecoder, order: seq<nat>, movementA: seq<MovementRuleState>,
      movementB: seq<MovementRuleState>)
    requires Reorders(a, b, order) && Follows(movementA, movementB, order)
    ensures ListedIn(a, b, movementA, movementB) && ListedIn(b, a, movementB, movementA)
  {
    hide CompiledOk;
    forall r | 0 <= r < |a.rules|
      ensures Lists(b, movementB, a.rules[r], movementA[r])
    {
      assert r in order;
      var i :| 0 <= i < |order| && order[i] == r;
      assert b.rules[i] == a.rules[r];
    }
    forall i | 0 <= i < |b.rules|
      ensures Lists(a, movementA, b.rules[i], movementB[i])
    {
      assert a.rules[order[i]] == b.rules[i];
    }
  }

  /** The announced wake-up does not depend on the order of the rules either. */
  lemma WakeUpIgnoresOrder(clock: Clock, a: CompiledDecoder, b: CompiledDecoder, order: seq<nat>,
      movementA: seq<MovementRuleState>, movementB: seq<MovementRuleState>, inputs: seq<InputView>, now: int)
    requires Reorders(a, b, order) && Follows(movementA, movementB, order) && |inputs| == |a.inputIds|
    ensures Earliest(clock, now, AllCandidates(clock, a, inputs, movementA, now))
         == Earliest(clock, now, AllCandidates(clock, b, inputs, movementB, now))
  {
    ReordersLists(a, b, order, movementA, movementB);
    hide CompiledOk, Awaited, ListedIn, AllCandidates, Follows;
    var (candidatesA, candidatesB) :=
      (AllCandidates(clock, a, inputs, movementA, now), AllCandidates(clock, b, inputs, movementB, now));
    forall c ensures c in candidatesA <==> c in candidatesB {
      CandidatesMean(clock, a, inputs, movementA, now, c);
      CandidatesMean(clock, b, inputs, movementB, now, c);
      if Awaited(clock, a, inputs, movementA, now, c) {
        AwaitedCarriesOver(clock, a, b, movementA, movementB, inputs, now, c);
      }
      if Awaited(clock, b, inputs, movementB, now, c) {
        AwaitedCarriesOver(clock, b, a, movementB, movementA, inputs, now, c);
      }
    }
    EarliestOfMembers(clock, now, candidatesA, candidatesB);
  }

  /** A whole evaluation, with the rules and their lifecycle states reordered together. */
  lemma EvaluationIgnoresOrder(clock: Clock, a: CompiledDecoder, b: CompiledDecoder, order: seq<nat>,
                               stateA: DecoderState, stateB: DecoderState, now: int)
    requires Reorders(a, b, order) && StateShaped(a, stateA) && StateShaped(b, stateB)
    requires stateA.inputs == stateB.inputs && stateA.monitoringHealthy == stateB.monitoringHealthy
    requires Follows(stateA.movementRules, stateB.movementRules, order)
    ensures var (nextA, nextB) := (Evaluate(clock, a, stateA, now), Evaluate(clock, b, stateB, now));
            && Follows(nextA.state.movementRules, nextB.state.movementRules, order)
            && SamePublic(nextA.state.result, nextB.state.result)
            && nextA.deadline == nextB.deadline
  {
    hide RulesOk, IsFamily, RuleValue, Settle, Arbitrate, AllCandidates;
    RulesOfBoth(a, b);
    var expressionsA := Expressions(clock, a.rules, stateA.inputs, now);
    var expressionsB := Expressions(clock, b.rules, stateB.inputs, now);
    assert Follows(expressionsA, expressionsB, order);
    var movementA := SettleAll(clock, a, expressionsA, stateA.movementRules, now);
    var movementB := SettleAll(clock, b, expressionsB, stateB.movementRules, now);
    assert Follows(movementA, movementB, order);
    ArbitrationIgnoresOrder(a, b, order, expressionsA, expressionsB, movementA, movementB, stateA.inputs,
                            stateA.monitoringHealthy, stateA.result.generation, stateB.result.generation);
    WakeUpIgnoresOrder(clock, a, b, order, movementA, movementB, stateA.inputs, now);
  }

  lemma RulesOfBoth(a: CompiledDecoder, b: CompiledDecoder)
    requires CompiledOk(a) && CompiledOk(b)
    ensures RulesOk(a.rules, |a.inputIds|) && RulesOk(b.rules, |b.inputIds|)
  {
  }
}

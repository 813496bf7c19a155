/** What the five phases of a movement rule amount to, told from the history of its expression. */
module LifecycleMeaning {
  import opened Ticks
  import opened DecoderModel
  import opened DecoderEvaluation
  import opened DecoderRuns

  /** The value of a rule's expression at one evaluation. */
  datatype Look = Look(matched: bool, at: int)

  /** The lifecycle state after a history of evaluations. */
  function LifecycleAfter(m: MovementLifecycleConfig, history: seq<Look>): MovementRuleState {
    var n := |history| - 1;
    if history == [] then INITIAL_MOVEMENT
    else Settle(Unbounded, m, history[n].matched, LifecycleAfter(m, history[..n]), history[n].at)
  }

  // ---- The meaning, without phases ----

  /** How long the latest run of equal values has lasted. */
  function Held(history: seq<Look>): int
    requires history != []
  {
    history[|history| - 1].at - history[RunBegin(history)].at
  }

  function RunBegin(history: seq<Look>): (begin: nat)
    requires history != []
    ensures begin < |history|
            && (forall j | begin <= j < |history| :: history[j].matched == history[|history| - 1].matched)
    ensures begin > 0 ==> history[begin - 1].matched != history[|history| - 1].matched
  {
    var n := |history| - 1;
    if n > 0 && history[n].matched == history[n - 1].matched then RunBegin(history[..n]) else n
  }

  predicate Confirms(m: MovementLifecycleConfig, history: seq<Look>)
    requires history != []
  {
    history[|history| - 1].matched && Held(history) >= m.entryConfirmationMs
  }

  predicate Loses(m: MovementLifecycleConfig, history: seq<Look>)
    requires history != []
  {
    !history[|history| - 1].matched && Held(history) >= m.lossConfirmationMs
  }

  /** A match has been confirmed, and no loss has been confirmed since. */
  predicate Recognized(m: MovementLifecycleConfig, history: seq<Look>) {
    history != [] && (Confirms(m, history) || (!Loses(m, history) && Recognized(m, history[..|history| - 1])))
  }

  /** The instant at which the present recognition began. */
  function RecognizedAt(m: MovementLifecycleConfig, history: seq<Look>): int
    requires Recognized(m, history)
  {
    var n := |history| - 1;
    if Recognized(m, history[..n]) then RecognizedAt(m, history[..n]) else history[n].at
  }

  /** The recognition is older than the rule allows and its expression still matches. */
  predicate Overdue(m: MovementLifecycleConfig, history: seq<Look>)
    requires Recognized(m, history)
  {
    var now := history[|history| - 1];
    now.matched && m.matchAgeLimitMs != 0 && now.at - RecognizedAt(m, history) >= m.matchAgeLimitMs
  }

  ghost predicate LooksInOrder(history: seq<Look>) {
    forall i | 0 < i < |history| :: history[i - 1].at <= history[i].at
  }

  // ---- The phases mean that ----

  /** What each phase stands for. */
  ghost predicate PhaseMeans(m: MovementLifecycleConfig, history: seq<Look>, s: MovementRuleState)
    requires history != []
  {
    var last := history[|history| - 1];
    match s.phase
    case Unmatched => !last.matched && !Recognized(m, history)
    case EntryPending =>
      && last.matched && !Recognized(m, history)
      && s.phaseSince == history[RunBegin(history)].at && Held(history) < m.entryConfirmationMs
    case Matched =>
      && last.matched && Recognized(m, history) && s.matchedSince == RecognizedAt(m, history) && !Overdue(m, history)
    case LossPending =>
      && !last.matched && Recognized(m, history) && s.matchedSince == RecognizedAt(m, history)
      && s.phaseSince == history[RunBegin(history)].at && Held(history) < m.lossConfirmationMs
    case Expired =>
      && last.matched && Recognized(m, history) && s.matchedSince == RecognizedAt(m, history) && Overdue(m, history)
  }

  lemma FirstLook(m: MovementLifecycleConfig, look: Look)
    ensures PhaseMeans(m, [look], LifecycleAfter(m, [look]))
  {
    assert [look][..0] == [];
    LifecycleAfterOne(m, [], look);
    LifecycleTwoSteps(m, look.matched, INITIAL_MOVEMENT, look.at);
  }

  lemma LifecycleAfterOne(m: MovementLifecycleConfig, earlier: seq<Look>, look: Look)
    ensures LifecycleAfter(m, earlier + [look])
              == Settle(Unbounded, m, look.matched, LifecycleAfter(m, earlier), look.at)
  {
    assert (earlier + [look])[..|earlier|] == earlier;
  }

  lemma LifecycleTwoSteps(m: MovementLifecycleConfig, matched: bool, s: MovementRuleState, now: int)
    ensures Settle(Unbounded, m, matched, s, now)
            == LifecycleStep(Unbounded, m, matched, LifecycleStep(Unbounded, m, matched, s, now), now)
  {
    assert LifecycleSteps(Unbounded, m, matched, s, now, 1) == LifecycleStep(Unbounded, m, matched, s, now);
  }

  /** How the meaning moves on with one more look. */
  lemma OneMoreLook(m: MovementLifecycleConfig, earlier: seq<Look>, look: Look)
    requires earlier != []
    ensures var history := earlier + [look];
            var same := look.matched == earlier[|earlier| - 1].matched;
            && RunBegin(history) == (if same then RunBegin(earlier) else |earlier|)
            && history[RunBegin(history)].at == (if same then earlier[RunBegin(earlier)].at else look.at)
            && Held(history) == (if same then look.at - earlier[RunBegin(earlier)].at else 0)
            && (Recognized(m, history) <==> Confirms(m, history) || (!Loses(m, history) && Recognized(m, earlier)))
            && (Recognized(m, history) ==>
                  RecognizedAt(m, history) == if Recognized(m, earlier) then RecognizedAt(m, earlier) else look.at)
  {
    var history := earlier + [look];
    assert history[..|earlier|] == earlier;
  }

  /** Each phase means what it should, after every history. */
  lemma {:induction false} PhasesMean(m: MovementLifecycleConfig, history: seq<Look>)
    requires history != [] && LooksInOrder(history)
    ensures PhaseMeans(m, history, LifecycleAfter(m, history))
  {
    var n := |history| - 1;
    var earlier, look := history[..n], history[n];
    assert earlier + [look] == history;
    if n == 0 {
      FirstLook(m, look);
    } else {
      PhasesMean(m, earlier);
      StepMeans(m, earlier, look);
    }
  }

  lemma StepMeans(m: MovementLifecycleConfig, earlier: seq<Look>, look: Look)
    requires earlier != [] && earlier[|earlier| - 1].at <= look.at
    requires PhaseMeans(m, earlier, LifecycleAfter(m, earlier))
    ensures PhaseMeans(m, earlier + [look], LifecycleAfter(m, earlier + [look]))
  {
    OneMoreLook(m, earlier, look);
    LifecycleAfterOne(m, earlier, look);
    LifecycleTwoSteps(m, look.matched, LifecycleAfter(m, earlier), look.at);
    hide RunBegin, Held, Recognized, RecognizedAt, LifecycleAfter, Settle, LifecycleSteps;
  }

  /** A movement is asserted exactly while it is recognized, unless the recognition is overdue and
      the expression still matches. The exception ends with the match: an expired rule asserts again
      from the moment its expression drops until the loss is confirmed. */
  lemma AssertedExactlyWhen(m: MovementLifecycleConfig, history: seq<Look>)
    requires history != [] && LooksInOrder(history)
    ensures Asserted(LifecycleAfter(m, history)) <==> Recognized(m, history) && !Overdue(m, history)
    ensures LifecycleAfter(m, history).phase == Expired <==> Recognized(m, history) && Overdue(m, history)
  {
    PhasesMean(m, history);
  }

  // ---- In runs of the decoder ----

  /** The looks a run takes at the expression of rule `r`: one for every call that is accepted. */
  ghost function Looks(decoder: CompiledDecoder, machine: Machine, run: seq<Timed>, r: nat): seq<Look>
    requires CompiledOk(decoder) && StateShaped(decoder, machine.state) && r < |decoder.rules|
    decreases |run|
  {
    if run == [] then []
    else
      var (event, at) := (run[0].event, run[0].at);
      (if Accepted(Unbounded, decoder, machine, event, at)
       then [Look(Expressions(Unbounded, decoder.rules, Record(decoder, machine.state, event, at).inputs, at)[r], at)]
       else [])
      + Looks(decoder, Apply(Unbounded, decoder, machine, event, at), run[1..], r)
  }

  lemma ApplyLooks(decoder: CompiledDecoder, machine: Machine, event: Event, at: int, r: nat)
    requires CompiledOk(decoder) && StateShaped(decoder, machine.state) && r < |decoder.rules| && IsMovement(decoder, r)
    ensures var after := Apply(Unbounded, decoder, machine, event, at);
            after.state.movementRules[r] ==
              if Accepted(Unbounded, decoder, machine, event, at)
              then Settle(Unbounded, decoder.rules[r].movement,
                          Expressions(Unbounded, decoder.rules, Record(decoder, machine.state, event, at).inputs,
                                      at)[r],
                          machine.state.movementRules[r], at)
              else machine.state.movementRules[r]
  {
    hide CompiledOk, Settle, Arbitrate, AllCandidates, RuleValue;
  }

  /** The first call of a run, taken off. */
  lemma FirstCall(decoder: CompiledDecoder, machine: Machine, run: seq<Timed>, r: nat)
    requires CompiledOk(decoder) && StateShaped(decoder, machine.state) && r < |decoder.rules| && IsMovement(decoder, r)
    requires run != []
    ensures var after := Apply(Unbounded, decoder, machine, run[0].event, run[0].at);
            var (looks, rest) := (Looks(decoder, machine, run, r), Looks(decoder, after, run[1..], r));
            && Run(Unbounded, decoder, machine, run) == Run(Unbounded, decoder, after, run[1..])
            && if Accepted(Unbounded, decoder, machine, run[0].event, run[0].at)
               then looks != [] && looks == [looks[0]] + rest
                    && after.state.movementRules[r] ==
                       Settle(Unbounded, decoder.rules[r].movement, looks[0].matched, machine.state.movementRules[r],
                              looks[0].at)
               else looks == rest && after.state.movementRules[r] == machine.state.movementRules[r]
  {
    ApplyLooks(decoder, machine, run[0].event, run[0].at, r);
    hide CompiledOk, Settle, Expressions, Apply, Accepted, Record;
    var rest := Looks(decoder, Apply(Unbounded, decoder, machine, run[0].event, run[0].at), run[1..], r);
    assert [] + rest == rest;
  }

  /** The lifecycle state after further looks. */
  function LifecycleFrom(m: MovementLifecycleConfig, s: MovementRuleState, looks: seq<Look>): MovementRuleState
    decreases |looks|
  {
    if looks == [] then s
    else LifecycleFrom(m, Settle(Unbounded, m, looks[0].matched, s, looks[0].at), looks[1..])
  }

  lemma {:induction false} FromIsAfter(m: MovementLifecycleConfig, past: seq<Look>, looks: seq<Look>)
    ensures LifecycleFrom(m, LifecycleAfter(m, past), looks) == LifecycleAfter(m, past + looks)
    decreases |looks|
  {
    hide Settle;
    if looks == [] {
      assert past + looks == past;
    } else {
      LifecycleAfterOne(m, past, looks[0]);
      FromIsAfter(m, past + [looks[0]], looks[1..]);
      assert past + [looks[0]] + looks[1..] == past + looks;
    }
  }

  /** In every run of the decoder the lifecycle of a movement rule is that of its looks. */
  lemma {:induction false} RunsFollowLooks(decoder: CompiledDecoder, machine: Machine, run: seq<Timed>, r: nat)
    requires CompiledOk(decoder) && StateShaped(decoder, machine.state) && r < |decoder.rules| && IsMovement(decoder, r)
    ensures Run(Unbounded, decoder, machine, run).state.movementRules[r]
            == LifecycleFrom(decoder.rules[r].movement, machine.state.movementRules[r], Looks(decoder, machine, run, r))
    decreases |run|
  {
    if run != [] {
      FirstCall(decoder, machine, run, r);
      hide CompiledOk, Settle, Apply, Accepted, Run, Looks;
      RunsFollowLooks(decoder, Apply(Unbounded, decoder, machine, run[0].event, run[0].at), run[1..], r);
    }
  }

  /** Calls are accepted only in the order of time. */
  lemma {:induction false} LooksAreInOrder(decoder: CompiledDecoder, machine: Machine, run: seq<Timed>, r: nat)
    requires CompiledOk(decoder) && StateShaped(decoder, machine.state) && r < |decoder.rules|
    ensures var looks := Looks(decoder, machine, run, r);
            LooksInOrder(looks) && (looks != [] && machine.timeValid ==> machine.lastNow <= looks[0].at)
    decreases |run|
  {
    hide CompiledOk, Expressions, Record, Meaningful;
    if run != [] {
      var (event, at) := (run[0].event, run[0].at);
      ApplyKeepsTime(decoder, machine, event, at);
      hide Apply, Accepted;
      LooksAreInOrder(decoder, Apply(Unbounded, decoder, machine, event, at), run[1..], r);
    }
  }

  lemma ApplyKeepsTime(decoder: CompiledDecoder, machine: Machine, event: Event, at: int)
    requires CompiledOk(decoder) && StateShaped(decoder, machine.state)
    ensures var after := Apply(Unbounded, decoder, machine, event, at);
            if Accepted(Unbounded, decoder, machine, event, at)
            then after.timeValid && after.lastNow == at && (machine.timeValid ==> machine.lastNow <= at)
            else after == machine
  {
    hide CompiledOk, Evaluate;
  }

  /** From power-up, a movement rule is asserted exactly when its expression's history says so. */
  lemma RuleAssertedExactlyWhen(decoder: CompiledDecoder, run: seq<Timed>, r: nat)
    requires CompiledOk(decoder) && r < |decoder.rules| && IsMovement(decoder, r)
    ensures var looks := Looks(decoder, InitialMachine(decoder), run, r);
            var m := decoder.rules[r].movement;
            Asserted(Run(Unbounded, decoder, InitialMachine(decoder), run).state.movementRules[r])
            <==> Recognized(m, looks) && !Overdue(m, looks)
  {
    var m := decoder.rules[r].movement;
    StartsUnseen(decoder, m, r);
    hide CompiledOk, Run, Looks, LifecycleAfter, Recognized, Overdue, Asserted, LooksInOrder, InitialMachine;
    var machine := InitialMachine(decoder);
    var looks := Looks(decoder, machine, run, r);
    LooksAreInOrder(decoder, machine, run, r);
    RunsFollowLooks(decoder, machine, run, r);
    FromIsAfter(m, [], looks);
    assert [] + looks == looks;
    if looks != [] {
      AssertedExactlyWhen(m, looks);
    }
  }

  lemma StartsUnseen(decoder: CompiledDecoder, m: MovementLifecycleConfig, r: nat)
    requires CompiledOk(decoder) && r < |decoder.rules|
    ensures StateShaped(decoder, InitialMachine(decoder).state)
    ensures InitialMachine(decoder).state.movementRules[r] == LifecycleAfter(m, [])
    ensures !Asserted(LifecycleAfter(m, [])) && !Recognized(m, [])
  {
  }
}

/** Over whole runs, the order in which rules are listed shows in nothing that a consumer may act on. */
module DecoderOrder {
  import opened Ticks
  import opened DecoderModel
  import opened DecoderEvaluation
  import opened DecoderArbitration
  import opened DecoderRuns

  /** Two decoders with the same rules in different orders, in the same condition. */
  ghost predicate SameMachine(a: CompiledDecoder, b: CompiledDecoder, order: seq<nat>, m: Machine, n: Machine) {
    && StateShaped(a, m.state) && StateShaped(b, n.state)
    && m.state.inputs == n.state.inputs && m.state.monitoringHealthy == n.state.monitoringHealthy
    && Follows(m.state.movementRules, n.state.movementRules, order)
    && SamePublic(m.state.result, n.state.result)
    && m.deadline == n.deadline && m.timeValid == n.timeValid && m.lastNow == n.lastNow
  }

  lemma CallsIgnoreOrder(clock: Clock, a: CompiledDecoder, b: CompiledDecoder, order: seq<nat>, m: Machine,
      n: Machine, event: Event, now: int)
    requires Reorders(a, b, order) && SameMachine(a, b, order, m, n)
    ensures Accepted(clock, a, m, event, now) == Accepted(clock, b, n, event, now)
    ensures SameMachine(a, b, order, Apply(clock, a, m, event, now), Apply(clock, b, n, event, now))
  {
    hide CompiledOk, Follows, SamePublic, Expressions, SettleAll, Arbitrate, AllCandidates, Earliest;
    if Accepted(clock, a, m, event, now) {
      EvaluationIgnoresOrder(clock, a, b, order, Record(a, m.state, event, now), Record(b, n.state, event, now), now);
    }
  }

  lemma {:induction false} RunsIgnoreOrder(clock: Clock, a: CompiledDecoder, b: CompiledDecoder, order: seq<nat>,
      m: Machine, n: Machine, run: seq<Timed>)
    requires Reorders(a, b, order) && SameMachine(a, b, order, m, n)
    ensures SameMachine(a, b, order, Run(clock, a, m, run), Run(clock, b, n, run))
    decreases |run|
  {
    hide CompiledOk, Apply, Follows, SamePublic;
    if run != [] {
      var (event, at) := (run[0].event, run[0].at);
      CallsIgnoreOrder(clock, a, b, order, m, n, event, at);
      RunsIgnoreOrder(clock, a, b, order, Apply(clock, a, m, event, at), Apply(clock, b, n, event, at), run[1..]);
    }
  }

  lemma StartIgnoresOrder(a: CompiledDecoder, b: CompiledDecoder, order: seq<nat>)
    requires Reorders(a, b, order)
    ensures SameMachine(a, b, order, InitialMachine(a), InitialMachine(b))
  {
    hide CompiledOk;
  }
}

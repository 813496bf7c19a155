/** The compile-time span test of periodic predicates, judged against what the firmware's own
    32-bit arithmetic can ever evaluate to true. */
module PeriodicSpan {
  import opened Ticks
  import opened DecoderModel
  import opened DecoderEvaluation

  // ---- What a periodic predicate asks for ----

  /** Edge `j` and the one after it are spaced as configured, and edge `j` is inside the window. */
  predicate Steady(clock: Clock, config: PeriodicEdgesConfig, edges: seq<int>, now: int, j: nat)
    requires j + 1 < |edges|
  {
    && config.minimumIntervalMs <= Age(clock, edges[j + 1], edges[j]) <= config.maximumIntervalMs
    && Age(clock, now, edges[j]) <= config.observationWindowMs
  }

  lemma {:induction false} RunStartMeans(clock: Clock, config: PeriodicEdgesConfig, edges: seq<int>, now: int, i: nat,
      s: nat)
    requires s <= i < |edges|
    ensures RunStart(clock, config, edges, now, i) <= s
            <==> forall j | s <= j < i :: Steady(clock, config, edges, now, j)
  {
    if s < i {
      if Steady(clock, config, edges, now, i - 1) {
        RunStartMeans(clock, config, edges, now, i - 1, s);
      } else {
        assert RunStart(clock, config, edges, now, i) == i;
      }
    }
  }

  /** The search for the longest run comes down to this: the predicate holds exactly when there are
      enough edges, the newest of them are evenly spaced and inside the window, and the very newest
      is recent. */
  lemma PeriodicMeans(clock: Clock, config: PeriodicEdgesConfig, edges: seq<int>, now: int)
    requires config.minimumEdges >= 2
    ensures PeriodicValue(clock, config, edges, now) <==>
              && |edges| >= config.minimumEdges
              && (forall j | |edges| - config.minimumEdges <= j < |edges| - 1 :: Steady(clock, config, edges, now, j))
              && Age(clock, now, edges[|edges| - 1]) < config.maximumGapMs
  {
    if |edges| >= config.minimumEdges {
      var newest, s := |edges| - 1, |edges| - config.minimumEdges;
      RunStartMeans(clock, config, edges, now, newest, s);
      var start := RunStart(clock, config, edges, now, newest);
      RunStartMeans(clock, config, edges, now, newest, start);
      if start <= s {
        assert Steady(clock, config, edges, now, start);
      }
    }
  }

  // ---- Whether anything can satisfy it ----

  /** Some retained history makes the predicate true at some instant. */
  ghost predicate Satisfiable(config: PeriodicEdgesConfig) {
    exists edges: seq<Tick>, now: Tick ::
      |edges| <= MAX_EDGES_PER_INPUT && PeriodicValue(Wrapping, config, edges, now)
  }

  /** A run of edges really is as old as its intervals add up to: no sum wraps unnoticed, because
      each edge of the run was inside the window when it was admitted. */
  lemma {:induction false} RunAge(config: PeriodicEdgesConfig, edges: seq<int>, now: int, i: nat)
    requires PeriodicRangesOk(config) && i < |edges| && Age(Wrapping, now, edges[i]) <= MAX_DURATION_MS
    ensures var start := RunStart(Wrapping, config, edges, now, i);
            Age(Wrapping, now, edges[start]) >= Age(Wrapping, now, edges[i]) + (i - start) * config.minimumIntervalMs
  {
    var start := RunStart(Wrapping, config, edges, now, i);
    if start < i {
      OlderEdgeAge(now, edges[i], edges[i - 1]);
      RunAge(config, edges, now, i - 1);
      assert (i - start) * config.minimumIntervalMs
          == (i - 1 - start) * config.minimumIntervalMs + config.minimumIntervalMs;
    }
  }

  lemma OlderEdgeAge(now: int, newer: int, older: int)
    requires Age(Wrapping, now, newer) <= MAX_DURATION_MS && Age(Wrapping, newer, older) <= MAX_DURATION_MS
    ensures Age(Wrapping, now, older) == Age(Wrapping, now, newer) + Age(Wrapping, newer, older)
  {
    assert (now - older) % WRAP == ((now - newer) % WRAP + (newer - older) % WRAP) % WRAP;
  }

  /** The densest history: `n` edges exactly `step` apart, the last one now. */
  function Comb(n: nat, step: int): (comb: seq<int>)
    requires step >= 0
    ensures |comb| == n
  {
    seq(n, i requires 0 <= i < n => i * step)
  }

  lemma CombSpacing(n: nat, step: int, i: nat)
    requires 0 < i < n && step >= 0
    ensures Comb(n, step)[i] - Comb(n, step)[i - 1] == step
    ensures 0 <= Comb(n, step)[n - 1] - Comb(n, step)[i - 1] <= (n - 1) * step
  {
    Monotone(i - 1, n - 1, step);
    Monotone(0, i - 1, step);
    assert i * step == (i - 1) * step + step;
  }

  lemma ShortAge(now: int, since: int)
    requires 0 <= now - since < WRAP
    ensures Age(Wrapping, now, since) == now - since
  {
  }

  lemma {:induction false} CombRuns(config: PeriodicEdgesConfig, i: nat)
    requires PeriodicOk(config) && i < config.minimumEdges
    ensures var n := config.minimumEdges as nat;
            var comb := Comb(n, config.minimumIntervalMs);
            RunStart(Wrapping, config, comb, comb[n - 1], i) == 0
  {
    hide Comb, Age;
    if i > 0 {
      var n := config.minimumEdges as nat;
      var comb := Comb(n, config.minimumIntervalMs);
      CombSpacing(n, config.minimumIntervalMs, i);
      ShortAge(comb[i], comb[i - 1]);
      ShortAge(comb[n - 1], comb[i - 1]);
      CombRuns(config, i - 1);
    }
  }

  lemma Monotone(i: nat, j: nat, step: int)
    requires i <= j && step >= 0
    ensures i * step <= j * step
  {
    assert j * step - i * step == (j - i) * step;
  }

  /** The modular count of intervals is exact in range, and growing the run grows the span. */
  lemma SpanGrows(config: PeriodicEdgesConfig, intervals: nat)
    requires PeriodicRangesOk(config) && config.minimumEdges - 1 <= intervals
    ensures MinimumSpan(config) == (config.minimumEdges - 1) * config.minimumIntervalMs
                                <= intervals * config.minimumIntervalMs
  {
    Monotone(config.minimumEdges - 1, intervals, config.minimumIntervalMs);
  }

  lemma MatchingRunFits(config: PeriodicEdgesConfig, edges: seq<int>, now: int)
    requires PeriodicRangesOk(config) && PeriodicValue(Wrapping, config, edges, now)
    ensures MinimumSpan(config) <= config.observationWindowMs
  {
    hide Age, RunStart, MinimumSpan;
    var newest := |edges| - 1;
    var start := RunStart(Wrapping, config, edges, now, newest);
    RunAge(config, edges, now, newest);
    AgeIsNonNegative(now, edges[newest]);
    SpanGrows(config, newest - start);
  }

  lemma AgeIsNonNegative(now: int, since: int)
    ensures Age(Wrapping, now, since) >= 0
  {
  }

  lemma CombMatches(config: PeriodicEdgesConfig)
    requires PeriodicOk(config)
    ensures var n := config.minimumEdges as nat;
            var comb := Comb(n, config.minimumIntervalMs);
            PeriodicValue(Wrapping, config, comb, comb[n - 1]) && forall i | 0 <= i < n :: 0 <= comb[i] < WRAP
  {
    var n := config.minimumEdges as nat;
    var comb := Comb(n, config.minimumIntervalMs);
    SpanGrows(config, n - 1);
    CombRuns(config, n - 1);
    forall i | 0 <= i < n ensures 0 <= comb[i] <= config.observationWindowMs {
      Monotone(i, n - 1, config.minimumIntervalMs);
      Monotone(0, i, config.minimumIntervalMs);
    }
    hide RunStart, Comb, MinimumSpan;
    assert comb[0] >= 0;
    ShortAge(comb[n - 1], comb[0]);
    ShortAge(comb[n - 1], comb[n - 1]);
  }

  /** Given the range checks, the span test accepts a predicate exactly when it is not
      unsatisfiable. */
  lemma SpanTestIsExact(config: PeriodicEdgesConfig)
    requires PeriodicRangesOk(config)
    ensures PeriodicOk(config) <==> Satisfiable(config)
  {
    hide PeriodicValue, MinimumSpan;
    if Satisfiable(config) {
      var edges: seq<Tick>, now: Tick :|
        |edges| <= MAX_EDGES_PER_INPUT && PeriodicValue(Wrapping, config, edges, now);
      MatchingRunFits(config, edges, now);
    }
    if PeriodicOk(config) {
      CombMatches(config);
      var n := config.minimumEdges as nat;
      var edges: seq<Tick> := Comb(n, config.minimumIntervalMs);
      var now: Tick := edges[n - 1];
      assert PeriodicValue(Wrapping, config, edges, now);
    }
  }
}

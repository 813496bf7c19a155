/** Debouncing one input: a level counts once a run of equal samples has lasted long enough. */
module SensorDebouncer {
  import opened Ticks

  /** A raw sample at a real instant; the first one of a history is the one taken at construction. */
  datatype Sample = Sample(raw: bool, at: int)

  datatype View = View(stable: bool, candidate: bool, since: Tick)

  datatype SensorUpdate = SensorUpdate(changed: bool, active: bool)

  const NO_UPDATE := SensorUpdate(false, false)

  /** The 32-bit test of the firmware. */
  predicate Flips(view: View, debounceMs: Duration, raw: bool, now: Tick) {
    raw == view.candidate != view.stable && (now - view.since) % WRAP >= debounceMs
  }

  function Fed(view: View, debounceMs: Duration, raw: bool, now: Tick): View {
    if raw != view.candidate then View(view.stable, raw, now)
    else if Flips(view, debounceMs, raw, now) then view.(stable := raw)
    else view
  }

  class SensorDebouncer {
    const debounceMs: Duration
    var stableActive: bool
    var candidateActive: bool
    var candidateSinceMs: Tick

    constructor (initialActive: bool, debounceMs: Duration, nowMs: Tick)
      ensures this.debounceMs == debounceMs && Now() == View(initialActive, initialActive, nowMs)
    {
      this.debounceMs := debounceMs;
      stableActive, candidateActive, candidateSinceMs := initialActive, initialActive, nowMs;
    }

    function Now(): View
      reads this
    {
      View(stableActive, candidateActive, candidateSinceMs)
    }

    method Update(rawActive: bool, nowMs: Tick) returns (update: SensorUpdate)
      modifies this
      ensures Now() == Fed(old(Now()), debounceMs, rawActive, nowMs)
      ensures update
           == if Flips(old(Now()), debounceMs, rawActive, nowMs) then SensorUpdate(true, rawActive) else NO_UPDATE
      ensures update.changed <==> stableActive != old(stableActive)
    {
      if rawActive != candidateActive {
        candidateActive, candidateSinceMs := rawActive, nowMs;
        return NO_UPDATE;
      }
      if candidateActive != stableActive && (nowMs - candidateSinceMs) % WRAP >= debounceMs {
        stableActive := candidateActive;
        return SensorUpdate(true, stableActive);
      }
      return NO_UPDATE;
    }
  }

  // ---- Histories in real time ----

  /** The debouncer after a whole history. */
  function After(history: seq<Sample>, debounceMs: Duration): View
    requires |history| > 0
  {
    var n := |history| - 1;
    if n == 0 then View(history[0].raw, history[0].raw, Wrap(history[0].at))
    else Fed(After(history[..n], debounceMs), debounceMs, history[n].raw, Wrap(history[n].at))
  }

  ghost predicate InOrder(history: seq<Sample>) {
    forall i | 0 < i < |history| :: history[i - 1].at <= history[i].at
  }

  /** Where the latest run of equal samples begins. */
  function RunBegin(history: seq<Sample>): (begin: nat)
    requires |history| > 0
    ensures begin < |history| && (forall j | begin <= j < |history| :: history[j].raw == history[|history| - 1].raw)
    ensures begin > 0 ==> history[begin - 1].raw != history[|history| - 1].raw
  {
    var n := |history| - 1;
    if n > 0 && history[n].raw == history[n - 1].raw then RunBegin(history[..n]) else n
  }

  function RunAge(history: seq<Sample>): int
    requires |history| > 0
  {
    history[|history| - 1].at - history[RunBegin(history)].at
  }

  /** The latest run has been seen more than once and has lasted, in real time. */
  predicate Lasted(history: seq<Sample>, debounceMs: Duration)
    requires |history| > 0
  {
    RunBegin(history) < |history| - 1 && RunAge(history) >= debounceMs
  }

  /** What debouncing means: the level of the last sample whose run had lasted, or the first level. */
  function Debounced(history: seq<Sample>, debounceMs: Duration): bool
    requires |history| > 0
  {
    var n := |history| - 1;
    if n == 0 then history[0].raw
    else if Lasted(history, debounceMs) then history[n].raw
    else Debounced(history[..n], debounceMs)
  }

  /** The debouncer remembers the latest run: its level, and its beginning as a 32-bit tick. */
  lemma {:induction false} RemembersRun(history: seq<Sample>, debounceMs: Duration)
    requires |history| > 0
    ensures var view := After(history, debounceMs);
            view.candidate == history[|history| - 1].raw && view.since == Wrap(history[RunBegin(history)].at)
  {
    var n := |history| - 1;
    if n > 0 {
      RemembersRun(history[..n], debounceMs);
    }
  }

  lemma {:induction false} RunIsInOrder(history: seq<Sample>, i: nat)
    requires InOrder(history) && i < |history|
    ensures history[i].at <= history[|history| - 1].at
  {
    var n := |history| - 1;
    if i < n {
      RunIsInOrder(history[..n], i);
      assert history[n - 1].at <= history[n].at;
    }
  }

  /** In real time a flip is never early: however often the tick has wrapped, the run that flips the
      level is at least as old as required; and for a run younger than the clock the flip is exact. */
  lemma FlipsAreNeverEarly(history: seq<Sample>, next: Sample, debounceMs: Duration)
    requires |history| > 0 && InOrder(history + [next])
    ensures var (view, whole) := (After(history, debounceMs), history + [next]);
            var flips := Flips(view, debounceMs, next.raw, Wrap(next.at));
            && (flips ==> next.raw != view.stable && Lasted(whole, debounceMs))
            && (next.raw != view.stable && Lasted(whole, debounceMs) && RunAge(whole) < WRAP ==> flips)
            && (After(whole, debounceMs).stable == if flips then next.raw else view.stable)
  {
    hide RunBegin, After, InOrder;
    RemembersRun(history, debounceMs);
    RunExtends(history, next, debounceMs);
    if next.raw == history[|history| - 1].raw {
      WrappedAgeAtMost(history[RunBegin(history)].at, next.at);
    }
  }

  lemma RunExtends(history: seq<Sample>, next: Sample, debounceMs: Duration)
    requires |history| > 0 && InOrder(history + [next])
    ensures var whole := history + [next];
            && After(whole, debounceMs) == Fed(After(history, debounceMs), debounceMs, next.raw, Wrap(next.at))
            && RunBegin(whole) == (if next.raw == history[|history| - 1].raw then RunBegin(history) else |history|)
            && history[RunBegin(history)].at <= next.at
  {
    hide Fed;
    var whole := history + [next];
    assert whole[..|history|] == history;
    RunIsInOrder(whole, RunBegin(history));
  }

  lemma WrappedAgeAtMost(since: int, now: int)
    requires since <= now
    ensures (Wrap(now) - Wrap(since)) % WRAP <= now - since
    ensures now - since < WRAP ==> (Wrap(now) - Wrap(since)) % WRAP == now - since
  {
    var turns := (Wrap(now) - Wrap(since)) / WRAP + now / WRAP - since / WRAP;
    assert now - since == turns * WRAP + (Wrap(now) - Wrap(since)) % WRAP;
  }

  /** Samples never so far apart that a run could outlive the clock unseen. */
  ghost predicate OftenEnough(history: seq<Sample>, debounceMs: Duration) {
    forall i | 0 < i < |history| :: history[i].at - history[i - 1].at < WRAP - debounceMs
  }

  /** As long as samples keep coming, the debouncer is the real-time definition on every history,
      however long its runs are and however often the tick has wrapped. */
  lemma {:induction false} DebouncesExactly(history: seq<Sample>, debounceMs: Duration)
    requires |history| > 0 && InOrder(history) && OftenEnough(history, debounceMs)
    ensures var view := After(history, debounceMs);
            && view.stable == Debounced(history, debounceMs)
            && (view.stable != view.candidate ==> !Lasted(history, debounceMs))
  {
    var n := |history| - 1;
    if n > 0 {
      var earlier, next := history[..n], history[n];
      DebouncesExactly(earlier, debounceMs);
      RemembersRun(earlier, debounceMs);
      assert earlier + [next] == history;
      RunExtends(earlier, next, debounceMs);
      hide RunBegin, After, Debounced;
      FlipsAreNeverEarly(earlier, next, debounceMs);
      assert next.at - earlier[n - 1].at < WRAP - debounceMs;
    }
  }
}

/** What an input remembers, told from the samples it was given. */
module InputMemory {
  import opened Ticks
  import opened DecoderModel
  import opened DecoderEvaluation
  import opened DecoderRuns
  import DecoderHistory
  import opened LifecycleMeaning

  /** The instants at which the level changed. */
  function Changes(samples: seq<Look>): seq<int> {
    var n := |samples| - 1;
    if n < 1 then []
    else Changes(samples[..n]) + if samples[n].matched != samples[n - 1].matched then [samples[n].at] else []
  }

  /** The memory after a history of accepted samples: one initialisation, and then updates. */
  function MemoryAfter(samples: seq<Look>): InputView {
    var n := |samples| - 1;
    if n < 0 then INITIAL_INPUT
    else if n == 0 then InputView(true, samples[0].matched, samples[0].at, samples[0].at, [])
    else UpdatedInput(MemoryAfter(samples[..n]), samples[n].matched, samples[n].at)
  }

  /** The level is that of the last sample, it is dated from the beginning of the latest run of equal
      samples, and the ring holds the latest sixteen changes. */
  lemma {:induction false} MemoryMeans(samples: seq<Look>)
    requires samples != []
    ensures var since := samples[RunBegin(samples)].at;
            MemoryAfter(samples)
            == InputView(true, samples[|samples| - 1].matched, since, since, DecoderHistory.Latest(Changes(samples)))
  {
    var n := |samples| - 1;
    if n > 0 {
      var earlier, sample := samples[..n], samples[n];
      MemoryMeans(earlier);
      if sample.matched != samples[n - 1].matched {
        DecoderHistory.PushKeepsLatest(Changes(earlier), sample.at);
      } else {
        assert Changes(samples) == Changes(earlier);
      }
    }
  }

  // ---- In runs of the decoder ----

  /** The accepted samples of input `i` in a run. */
  ghost function Samples(clock: Clock, decoder: CompiledDecoder, machine: Machine, run: seq<Timed>, i: nat): seq<Look>
    requires CompiledOk(decoder) && StateShaped(decoder, machine.state)
    decreases |run|
  {
    if run == [] then []
    else
      var (event, at) := (run[0].event, run[0].at);
      OwnSample(clock, decoder, machine, event, at, i)
        + Samples(clock, decoder, Apply(clock, decoder, machine, event, at), run[1..], i)
  }

  function OwnSample(clock: Clock, decoder: CompiledDecoder, machine: Machine, event: Event, at: int, i: nat): seq<Look>
    requires StateShaped(decoder, machine.state)
  {
    if (event.Initialize? || event.Update?) && FindInput(decoder.inputIds, event.id, 0) == i
       && Accepted(clock, decoder, machine, event, at)
    then [Look(event.level, at)] else []
  }

  lemma OneMoreSample(past: seq<Look>, sample: Look)
    ensures MemoryAfter(past).valid <==> past != []
    ensures past == [] ==> MemoryAfter(past + [sample]) == InputView(true, sample.matched, sample.at, sample.at, [])
    ensures past != [] ==> MemoryAfter(past + [sample]) == UpdatedInput(MemoryAfter(past), sample.matched, sample.at)
  {
    assert (past + [sample])[..|past|] == past;
    if past != [] {
      MemoryMeans(past);
    }
  }

  lemma ApplyRemembers(clock: Clock, decoder: CompiledDecoder, machine: Machine, past: seq<Look>, event: Event,
                       at: int, i: nat)
    requires CompiledOk(decoder) && StateShaped(decoder, machine.state) && i < |decoder.inputIds|
    requires machine.state.inputs[i] == MemoryAfter(past)
    ensures Apply(clock, decoder, machine, event, at).state.inputs[i]
            == MemoryAfter(past + OwnSample(clock, decoder, machine, event, at, i))
  {
    hide CompiledOk, Expressions, SettleAll, Arbitrate, AllCandidates, InTime, UpdatedInput, MemoryAfter;
    assert past + [] == past;
    OneMoreSample(past, Look(false, at));
    if event.Initialize? || event.Update? {
      OneMoreSample(past, Look(event.level, at));
      assert past == [] ==> machine.state.inputs[i].edges == [] by {
        Unseen();
      }
    }
  }

  lemma Unseen()
    ensures MemoryAfter([]) == INITIAL_INPUT
  {
  }

  /** In every run, on either clock, an input remembers its accepted samples and nothing else. */
  lemma {:induction false} RunsRemember(clock: Clock, decoder: CompiledDecoder, machine: Machine, past: seq<Look>,
                                        run: seq<Timed>, i: nat)
    requires CompiledOk(decoder) && StateShaped(decoder, machine.state) && i < |decoder.inputIds|
    requires machine.state.inputs[i] == MemoryAfter(past)
    ensures Run(clock, decoder, machine, run).state.inputs[i]
            == MemoryAfter(past + Samples(clock, decoder, machine, run, i))
    decreases |run|
  {
    hide CompiledOk, Apply, OwnSample, MemoryAfter;
    if run == [] {
      assert past + [] == past;
    } else {
      var (event, at) := (run[0].event, run[0].at);
      var own := OwnSample(clock, decoder, machine, event, at, i);
      ApplyRemembers(clock, decoder, machine, past, event, at, i);
      RunsRemember(clock, decoder, Apply(clock, decoder, machine, event, at), past + own, run[1..], i);
      var rest := Samples(clock, decoder, Apply(clock, decoder, machine, event, at), run[1..], i);
      assert past + own + rest == past + (own + rest);
    }
  }

  /** From power-up, on either clock: a stable-level predicate holds exactly when its input has been
      sampled and its latest run of equal samples has the level and has lasted the hold time. */
  lemma StableMeans(clock: Clock, decoder: CompiledDecoder, run: seq<Timed>, p: CompiledPredicate, now: int)
    requires CompiledOk(decoder) && p.kind == StableLevel && p.input < |decoder.inputIds|
    ensures var samples := Samples(clock, decoder, InitialMachine(decoder), run, p.input);
            PredicateValue(clock, p, Run(clock, decoder, InitialMachine(decoder), run).state.inputs[p.input], now)
            <==> && samples != [] && samples[|samples| - 1].matched == p.stable.level
                 && Age(clock, now, samples[RunBegin(samples)].at) >= p.stable.holdMs
  {
    StartsEmpty(decoder, p.input);
    hide CompiledOk, Run, RunBegin, Samples, MemoryAfter, InitialMachine;
    var machine := InitialMachine(decoder);
    var samples := Samples(clock, decoder, machine, run, p.input);
    RunsRemember(clock, decoder, machine, [], run, p.input);
    assert [] + samples == samples;
    if samples == [] {
      Unseen();
    } else {
      MemoryMeans(samples);
    }
  }

  lemma StartsEmpty(decoder: CompiledDecoder, i: nat)
    requires CompiledOk(decoder) && i < |decoder.inputIds|
    ensures StateShaped(decoder, InitialMachine(decoder).state)
    ensures InitialMachine(decoder).state.inputs[i] == MemoryAfter([])
  {
  }
}

/** How long the owner task may sleep. */
module RuntimeSleep {
  import opened Ticks
  import opened RuntimeModel
  import opened RuntimeInvariants
  import C = GateController
  import D = DecoderModel
  import E = DecoderEvaluation
  import R = DecoderRuns
  import AppConfigModel

  // ---- Waiting ----

  ghost function ArmedTimers(timers: seq<Timer>): seq<int> {
    if timers == [] then []
    else ArmedTimers(timers[..|timers| - 1]) + if timers[|timers| - 1].active then [timers[|timers| - 1].at] else []
  }

  /** The armed deadlines, in the order in which they are looked at. */
  ghost function Armed(view: View): seq<int> {
    ArmedTimers([view.pulse, view.opening, view.closing, view.stability])
    + if view.machine.Some? && view.machine.value.deadline.At? then [view.machine.value.deadline.at] else []
  }

  lemma {:induction false} ActiveIsArmed(timers: seq<Timer>, i: nat)
    requires i < |timers| && timers[i].active
    ensures timers[i].at in ArmedTimers(timers)
  {
    if i < |timers| - 1 {
      ActiveIsArmed(timers[..|timers| - 1], i);
    }
  }

  /** Milliseconds until a deadline; zero once it is reached. */
  function Remaining(now: Tick, at: int): nat {
    if Signed((now - at) % WRAP) >= 0 then 0 else (at - now) % WRAP
  }

  /** The shortest remaining time; none when nothing is armed. */
  ghost predicate IsWait(ats: seq<int>, now: Tick, wait: D.Option<nat>) {
    match wait
    case None => ats == []
    case Some(ms) =>
      && (exists i | 0 <= i < |ats| :: ms == Remaining(now, ats[i]))
      && (forall i | 0 <= i < |ats| :: ms <= Remaining(now, ats[i]))
  }

  /** Nothing armed is due at the instant. */
  ghost predicate NothingDue(view: View, now: Tick) {
    && !Due(view.pulse, now) && !Due(view.opening, now) && !Due(view.closing, now) && !Due(view.stability, now)
    && (view.machine.Some? ==> !DecoderDue(view.machine.value, now))
  }

  /** A deadline that is not yet reached stays so until its remaining time is over, on a clock that
      wraps meanwhile. */
  lemma NotReachedEarlier(now: int, at: int, slept: nat)
    requires slept < Remaining(Wrap(now), at)
    ensures Signed((Wrap(now + slept) - at) % WRAP) < 0
  {
    NotReachedIsAhead(Wrap(now), at);
    var ahead := (at - Wrap(now)) % WRAP;
    var turns := now / WRAP - (now + slept) / WRAP - (at - Wrap(now)) / WRAP - 1;
    assert Wrap(now + slept) - at == turns * WRAP + (slept - ahead + WRAP);
    ModIs(Wrap(now + slept) - at, turns, slept - ahead + WRAP);
  }

  /** A deadline not yet reached lies at most half the clock ahead. */
  lemma NotReachedIsAhead(now: Tick, at: int)
    requires Signed((now - at) % WRAP) < 0
    ensures 0 < (at - now) % WRAP <= HALF
  {
    ModIs(at - now, -((now - at) / WRAP) - 1, WRAP - (now - at) % WRAP);
  }

  lemma ModIs(value: int, turns: int, rest: Tick)
    requires value == turns * WRAP + rest
    ensures value % WRAP == rest
  {
  }

  /** While the owner task sleeps, nothing falls due before it wakes. */
  lemma NothingFallsDueAsleep(view: View, now: int, ms: nat, slept: nat)
    requires IsWait(Armed(view), Wrap(now), D.Some(ms)) && slept < ms
    ensures NothingDue(view, Wrap(now + slept))
  {
    hide Remaining;
    var ats := Armed(view);
    forall at | at in ats
      ensures Signed((Wrap(now + slept) - at) % WRAP) < 0
    {
      var i :| 0 <= i < |ats| && ats[i] == at;
      NotReachedEarlier(now, at, slept);
    }
    var timers := [view.pulse, view.opening, view.closing, view.stability];
    forall i | 0 <= i < 4 && timers[i].active
      ensures timers[i].at in ats
    {
      ActiveIsArmed(timers, i);
    }
    assert view.pulse == timers[0] && view.opening == timers[1] && view.closing == timers[2]
        && view.stability == timers[3];
    assert view.machine.Some? && view.machine.value.deadline.At? ==> view.machine.value.deadline.at in ats;
  }

  // ---- After the timers have been processed ----

  lemma ArmedAheadIsNotReached(now: Tick, duration: Duration)
    requires 0 < duration <= HALF
    ensures !Reached(now, Arm(now, duration).at)
  {
    assert (now - (now + duration) % WRAP) % WRAP == (0 - duration) % WRAP;
  }

  /** Every event leaves each travel deadline as it was, stopped, or freshly armed. */
  lemma EventTimers(config: Config, view: View, event: C.Event, now: Tick, activated: bool)
    requires !C.IsRequest(event) && !event.Boot? && !event.ObservationChanged?
    ensures var after := ApplyEvent(config, view, event, now, activated);
            && after.opening in {view.opening, view.opening.Stopped(), Arm(now, config.timing.openingMs)}
            && after.closing in {view.closing, view.closing.Stopped(), Arm(now, config.timing.closingMs)}
            && after.stability in {view.stability, view.stability.Stopped()}
            && after.pulse == view.pulse && after.machine == view.machine
            && (event in {C.PulseCompleted, C.OpeningTimerExpired, C.ClosingTimerExpired}
                    || event.ObservationStable? ==>
                  && after.opening in {view.opening, view.opening.Stopped()}
                  && after.closing in {view.closing, view.closing.Stopped()})
  {
    hide C.SequentialDecision, C.DirectionalDecision, Config.PulseMs, CanStart;
  }

  ghost predicate Fresh(config: Config, now: Tick) {
    !Reached(now, Arm(now, config.timing.openingMs).at) && !Reached(now, Arm(now, config.timing.closingMs).at)
  }

  lemma EarlierPhases(config: Config, view: View, now: Tick)
    requires Shaped(config, view) && Fresh(config, now)
    ensures var v3 := ExpireOpening(config, ExpirePulse(config, ExpireDecoder(config, view, now), now), now);
            && !Due(v3.pulse, now) && !Due(v3.opening, now)
            && v3.machine == ExpireDecoder(config, view, now).machine
  {
    hide ExpireDecoder, ApplyEvent, Reached, C.Reduce;
    var v1 := ExpireDecoder(config, view, now);
    if Due(v1.pulse, now) {
      EventTimers(config, v1.(pulse := v1.pulse.Stopped(), guard := v1.guard.(active := false)), C.PulseCompleted, now,
                  false);
    }
    var v2 := ExpirePulse(config, v1, now);
    if Due(v2.opening, now) {
      EventTimers(config, v2.(opening := v2.opening.Stopped()), C.OpeningTimerExpired, now, false);
    }
  }

  lemma LaterPhases(config: Config, view: View, now: Tick)
    requires !Due(view.pulse, now) && !Due(view.opening, now)
    ensures var v5 := ExpireStability(config, ExpireClosing(config, view, now), now);
            && !Due(v5.pulse, now) && !Due(v5.opening, now) && !Due(v5.closing, now) && !Due(v5.stability, now)
            && v5.machine == view.machine
  {
    hide ApplyEvent, Reached, C.Reduce;
    if Due(view.closing, now) {
      EventTimers(config, view.(closing := view.closing.Stopped()), C.ClosingTimerExpired, now, false);
    }
    var v4 := ExpireClosing(config, view, now);
    if Due(v4.stability, now) {
      EventTimers(config, v4.(stability := v4.stability.Stopped()),
          C.ObservationStable(v4.snapshot.pendingObservation), now, false);
    }
  }

  lemma DecoderLooksAhead(config: Config, view: View, now: Tick)
    requires Shaped(config, view) && config.decoder.Some? && R.InTime(Wrapping, view.machine.value, now)
    ensures ExpireDecoder(config, view, now).machine.Some?
    ensures !DecoderDue(ExpireDecoder(config, view, now).machine.value, now)
  {
    var decoder, machine := config.decoder.value, view.machine.value;
    AdvanceKeepsMachine(config, view, machine, now);
    hide D.CompiledOk, AdvanceDecoder, R.Apply, R.InTime;
    if DecoderDue(machine, now) {
      AdvancedLooksAhead(decoder, machine, now);
    }
  }

  lemma AdvancedLooksAhead(decoder: D.CompiledDecoder, machine: R.Machine, now: Tick)
    requires D.CompiledOk(decoder) && D.StateShaped(decoder, machine.state) && R.InTime(Wrapping, machine, now)
    ensures !DecoderDue(R.Apply(Wrapping, decoder, machine, R.Advance, now), now)
  {
    hide D.CompiledOk, E.Evaluate, E.AllCandidates;
    E.DeadlineIsNearest(Wrapping, decoder, machine.state, now);
    var advanced := R.Apply(Wrapping, decoder, machine, R.Advance, now);
    if advanced.deadline.At? {
      assert IsFuture(Wrapping, now, advanced.deadline.at);
      assert (now - advanced.deadline.at) % WRAP == (0 - (advanced.deadline.at - now) % WRAP) % WRAP;
    }
  }

  lemma AdvanceKeepsMachine(config: Config, view: View, machine: R.Machine, now: Tick)
    requires config.decoder.Some? && D.CompiledOk(config.decoder.value)
             && D.StateShaped(config.decoder.value, machine.state)
    ensures AdvanceDecoder(config, view, machine, now).machine
            == D.Some(R.Apply(Wrapping, config.decoder.value, machine, R.Advance, now))
  {
    hide D.CompiledOk, R.Apply, ApplyEvent;
    var moved := view.(machine := D.Some(R.Apply(Wrapping, config.decoder.value, machine, R.Advance, now)));
    TakingKeepsMachine(config, moved, moved.machine.value.state.result, now);
  }

  lemma TakingKeepsMachine(config: Config, view: View, decoded: D.DecoderResult, now: Tick)
    ensures TakeResult(config, view, decoded, now).machine == view.machine
  {
    hide ApplyEvent, PositionEvent, MovementEvent, Unhealthy;
    forall v: View, e: C.Event
      ensures ApplyEvent(config, v, e, now, false).machine == v.machine
    {
      EventKeepsMachine(config, v, e, now);
    }
  }

  lemma EventKeepsMachine(config: Config, view: View, event: C.Event, now: Tick)
    ensures ApplyEvent(config, view, event, now, false).machine == view.machine
  {
    hide C.Reduce, Config.PulseMs, CanStart;
  }

  /** Once the owner task has processed its timers nothing armed is due, so its wait is never zero for a
      deadline it has just handled; the decoder must be asked in order of time, as it always is. */
  lemma ProcessingLeavesNothingDue(config: Config, view: View, now: Tick)
    requires config.Ok() && Shaped(config, view)
    requires view.machine.Some? ==> R.InTime(Wrapping, view.machine.value, now)
    ensures NothingDue(ProcessExpired(config, view, now), now)
  {
    ArmedAheadIsNotReached(now, config.timing.openingMs);
    ArmedAheadIsNotReached(now, config.timing.closingMs);
    hide D.CompiledOk, ExpireDecoder, ExpirePulse, ExpireOpening, ExpireClosing, ExpireStability, Due, DecoderDue;
    EarlierPhases(config, view, now);
    LaterPhases(config, ExpireOpening(config, ExpirePulse(config, ExpireDecoder(config, view, now), now), now), now);
    MachineStays(config, view, now);
    if config.decoder.Some? {
      DecoderLooksAhead(config, view, now);
    }
  }

  lemma MachineStays(config: Config, view: View, now: Tick)
    requires Shaped(config, view)
    ensures ExpireDecoder(config, view, now).machine.Some? <==> config.decoder.Some?
  {
    if config.decoder.Some? && DecoderDue(view.machine.value, now) {
      AdvanceKeepsMachine(config, view, view.machine.value, now);
    }
  }
}

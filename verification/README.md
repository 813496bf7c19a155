# Garage door controller: verification model

A Dafny model of the four parts of the ESP32 garage-door firmware whose promises span whole runs,
with proofs of those promises. `dafny verify dfyconfig.toml` checks everything.

**Signal decoder.** The installer's rules are compiled to tables (`DecoderCompiler`,
`DecoderMeaning`); a running decoder keeps sixteen edges per input (`EdgeRing`), evaluates AND/OR
expressions over them, runs a five-phase lifecycle per movement rule, arbitrates three channels and
announces its next wake-up (`DecoderEvaluation`, `DecoderRuns`). Every rule is written once over a
`Clock` (`Ticks`): `Wrapping` is the firmware's 32-bit arithmetic, `Unbounded` is real time. In real
time, waking only when announced equals polling every millisecond (`DecoderQuiet`, `DecoderRuns`),
the ring equals the whole history (`DecoderHistory`, `InputMemory`), and the phases mean what
`LifecycleMeaning` says; `DecoderWrap` carries that over to the 32-bit clock. `DecoderArbitration` and
`PeriodicSpan` say what is published and what a periodic predicate asks for, and `DecoderOrder` that the
order of the rules shows in no channel, phase or wake-up. `SignalDecoder` is the object that does all
this in place.

**Restore staging.** Two manifest slots, a payload and the NVS partition (`RestoreModel`,
`RestoreStaging`). Each flash operation, the reads of the manifest included, may fail, or lose power
before, during or after its work, and then leaves one of the contents such an accident can leave; an
arbitrary function `fate` of the operation's place in time settles which. SHA-256 is an opaque
function; only the statements that name an image as a whole suppose it injective. Ghost fields count
the erases, the manifest reads that missed the current record and those that hid an announced
attempt, and say which image was staged, whether NVS has been torn by a restore, whether every flash
operation since a chosen moment did what it was asked to, whether power is off (nothing may then be
done to the flash), and whether the staging has ended. The
protocol is stated as an invariant of every call, boot and power cycle. The code means to attempt an
image three times at most (`kMaximumAttempts`); `RestoreModel.AttemptUncountedExactly` says when an
attempt goes uncounted, the bound holds while none does, and `RestoreMishap` is a run in which one does.

**Controller runtime.** The pure reducer (`GateController`), the guard, the outputs, and the owner
task with its four deadlines and its decoder. `RuntimeModel` says what one step makes of the state,
`RuntimeInvariants` and `RuntimeRuns` what every run keeps, `RuntimeSleep` why the owner task never
sleeps past a deadline, `RuntimeWakes` that its decoder therefore loses nothing to sleeping,
`RuntimeTravel` that no movement outlasts its travel time and that an observed endpoint is believed
once it has lasted, and not before; `GateRuntime`, `GateHardware` and `RelayPulseGuard` are the
objects, proved to do just that. `SensorDebouncer` is the debouncing of one input.

**Codecs and key derivation.** The packed configuration record with its migration
(`PersistedConfig`, `ConfigCodec`, `ConfigRoundTrip`, `KeptValidity`, `ConfigRepository`), validation
(`AppConfigValidation`, `ConfigValidator`), the decoder part of a gate profile as a JSON tree
(`ProfileTree`, `ProfileCodec`, `ProfileRoundTrip`), and the two PBKDF2 loops (`Pbkdf2`).

## Reading the model

- An enumeration is one byte in the firmware; `Other...` constructors are bytes that name no
  enumerator. Fixed arrays with counts are sequences of the array's length with a count.
- Real instants are unbounded integers; the firmware sees them through `Wrap`. The horizon of
  `DecoderWrap` (`Fresh`, `InHorizon`) says which timestamps must be younger than one wrap.
- `docs/backup-and-recovery.md:77` says that a successful application erases the staging; the code
  keeps the payload until two clean boots have passed, and so does the model.
- FreeRTOS runs at 1000 ticks a second, so a wait in milliseconds is a wait in ticks.
- Outcomes of the hardware, flash, hash and random number generator are nondeterministic choices or
  parameters.

## Model

| member | source | states |
|---|---|---|
| Ticks.EarliestIsMinimum | components/signal_decoder/signal_decoder.cpp:13-24 | the running comparison of wrapping ticks ends with a listed instant that is strictly ahead and nearest, or with none when none is ahead |
| Ticks.EarliestIsUnique | components/signal_decoder/signal_decoder.cpp:17-24 | no other instant answers that description, so the order in which candidates are considered does not matter |
| Ticks.EarliestOfMembers | components/signal_decoder/signal_decoder.cpp:17-24 | nor does it matter how often an instant is listed |
| Ticks.WrappedEarliest | components/signal_decoder/signal_decoder.cpp:13-24 | for candidates within half a wrap, the 32-bit wake-up is the real-time wake-up reduced modulo 2^32 |
| DecoderEvaluation.Publish | components/signal_decoder/signal_decoder.cpp:620-674 | a valid position excludes valid movement and obstruction; an ambiguous position or failed monitoring withholds both channels, an ambiguous movement its own |
| DecoderEvaluation.SettleSettles | components/signal_decoder/signal_decoder.cpp:488-564 | two lifecycle steps reach a fixed point from any phase under any rule, so four passes are always enough, and settling again changes nothing |
| DecoderEvaluation.OneStepIsNotEnough | components/signal_decoder/signal_decoder.cpp:488-564 | one step is not always enough: a rule that matches again can find its match already too old |
| DecoderEvaluation.EvaluateTwice | components/signal_decoder/signal_decoder.cpp:474-676 | a second evaluation at the same instant changes no phase, result, number or wake-up |
| DecoderEvaluation.DeadlineIsNearest | components/signal_decoder/signal_decoder.cpp:474-600 | the published wake-up is the strictly future minimum of every instant at which time alone could change something |
| PeriodicSpan.PeriodicMeans | components/signal_decoder/signal_decoder.cpp:151-186 | a periodic predicate holds exactly when the newest required edges are evenly spaced and inside the window and the very newest is recent: the run search needs no more than that |
| PeriodicSpan.SpanTestIsExact | components/signal_decoder/signal_decoder.cpp:340-353 | given the range checks, the minimum-span test accepts a predicate exactly when some retained history makes it true in 32-bit arithmetic |
| PeriodicSpan.RunAge | components/signal_decoder/signal_decoder.cpp:157-178 | no sum of intervals wraps unnoticed along an admitted run |
| LifecycleMeaning.PhasesMean | components/signal_decoder/signal_decoder.cpp:488-564 | after every history of expression values each of the five phases stands for a fact about that history: confirmed or not, lost or not, overdue or not, and its timestamps are the instants those facts began |
| LifecycleMeaning.AssertedExactlyWhen | components/signal_decoder/signal_decoder.cpp:496-556 | a movement is asserted exactly when a match has been confirmed and no loss since, unless the recognition is overdue and the expression still matches; an expired rule asserts again once its expression drops |
| LifecycleMeaning.RuleAssertedExactlyWhen | components/signal_decoder/signal_decoder.cpp:474-629 | the same for every movement rule in every run of the decoder from power-up |
| LifecycleMeaning.RunsFollowLooks | components/signal_decoder/signal_decoder.cpp:474-564 | in every run the lifecycle state of a rule is the fold of its expression values at the accepted calls |
| InputMemory.MemoryMeans | components/signal_decoder/signal_decoder.cpp:397-420 | an input remembers the last level, dated from the beginning of its latest run of equal samples, and the latest sixteen changes |
| InputMemory.RunsRemember | components/signal_decoder/signal_decoder.cpp:397-420 | in every run, on either clock, that is all it remembers of the calls |
| InputMemory.StableMeans | components/signal_decoder/signal_decoder.cpp:127-144 | a stable-level predicate holds exactly when the latest run of equal accepted samples has the level and has lasted the hold time |
| DecoderArbitration.CountingMeans | components/signal_decoder/signal_decoder.cpp:608-640 | counting votes finds whether any value was voted for, whether two differed, and a value that was |
| DecoderArbitration.CountDecides | components/signal_decoder/signal_decoder.cpp:608-640 | a count is decided exactly when one value and no other was voted for |
| DecoderArbitration.ArbitrationMeans | components/signal_decoder/signal_decoder.cpp:602-674 | what is published, rule by rule and without loops or indexes: the position or movement that every asserting rule names, an obstruction that a fault rule or an overaged movement reports, and the health |
| DecoderArbitration.ArbitrationIgnoresOrder | components/signal_decoder/signal_decoder.cpp:602-674 | permuting the compiled rules changes no validity flag, no valid value, no obstruction, age flag or health |
| DecoderArbitration.EvaluationIgnoresOrder | components/signal_decoder/signal_decoder.cpp:474-676 | the same for a whole evaluation, with rules and lifecycle states permuted together; the announced wake-up is the same too |
| DecoderArbitration.CandidatesMean | components/signal_decoder/signal_decoder.cpp:127-213 | an instant is considered for the wake-up exactly when some rule awaits it, with its expression or with its lifecycle |
| DecoderOrder.CallsIgnoreOrder | components/signal_decoder/signal_decoder.cpp:397-431 | two decoders with the same rules in different orders accept the same calls and stay in the same condition |
| DecoderOrder.RunsIgnoreOrder | components/signal_decoder/signal_decoder.cpp:397-676 | so over every run, on either clock, they publish the same, are in the same phases rule by rule, and announce the same wake-ups |
| DecoderOrder.StartIgnoresOrder | components/signal_decoder/signal_decoder.cpp:395 | two such decoders start in the same condition |
| DecoderQuiet.NothingBeforeDeadline | components/signal_decoder/signal_decoder.cpp:127-213 | in real time, an evaluation strictly before the announced wake-up leaves phases, result, number and wake-up as they were |
| DecoderRuns.FindInput | components/signal_decoder/signal_decoder.cpp:678-683 | the first slot with the id, or none |
| DecoderRuns.InitiallyResting | components/signal_decoder/signal_decoder.cpp:395 | a new decoder is at rest at any instant |
| DecoderRuns.ApplyKeepsResting | components/signal_decoder/signal_decoder.cpp:397-431 | every call leaves the decoder in the state its own evaluation would leave again |
| DecoderRuns.EarlyPollIsIdle | components/signal_decoder/signal_decoder.cpp:428-431 | a poll before the announced wake-up only moves the clock |
| DecoderRuns.PunctualRunsAgree | components/signal_decoder/signal_decoder.cpp:397-676 | two decoders given the same timed evidence and polled at every announced wake-up agree at every common instant, whatever extra polls either is given |
| DecoderRuns.WakeupsArePunctual | components/signal_decoder/signal_decoder.cpp:566-600 | following the announced wake-ups is a punctual run |
| DecoderRuns.PollingIsPunctual | components/signal_decoder/signal_decoder.cpp:428-431 | polling every millisecond is a punctual run |
| DecoderRuns.SleepingEqualsPolling | components/signal_decoder/signal_decoder.cpp:397-676 | sleeping until each announced wake-up ends exactly where polling every millisecond would |
| DecoderWrap.StaleAgeLimitLooksAhead | components/signal_decoder/signal_decoder.cpp:574-582 | a passed age limit of a rule that is losing its match reads as one still to come exactly when the match is older than the limit plus half a wrap |
| DecoderWrap.EvaluateWraps | components/signal_decoder/signal_decoder.cpp:127-213 | inside the horizon the 32-bit evaluation of reduced timestamps is the reduction of the real-time evaluation |
| DecoderWrap.ApplyWraps | components/signal_decoder/signal_decoder.cpp:397-431 | the same for every call, acceptance included |
| DecoderWrap.RunWraps | components/signal_decoder/signal_decoder.cpp:397-676 | the same for every run |
| DecoderWrap.FirmwareRunsAgree | components/signal_decoder/signal_decoder.cpp:397-676 | event-driven and polled firmware decoders agree, on the 32-bit clock, across any number of wraps inside the horizon |
| EdgeRing.OverwriteOldest | components/signal_decoder/signal_decoder.cpp:106-119 | writing the slot at the head appends an edge and drops the oldest when the ring is full |
| EdgeRing.EdgeHistory.EdgeAt | components/signal_decoder/signal_decoder.cpp:106-112 | a logical index reads the edge of that age |
| EdgeRing.EdgeHistory.PushEdge | components/signal_decoder/signal_decoder.cpp:114-119 | the ring holds the latest edges, oldest first |
| DecoderHistory.RingDecidesAsHistory | components/signal_decoder/signal_decoder.cpp:106-178 | the ring decides every compiled periodic predicate as the whole unbounded history would |
| DecoderHistory.RingNeedsTheCap | components/signal_decoder/signal_decoder.cpp:344-353 | without the cap on the required edges it would not |
| DecoderHistory.RingRunsAsHistory | components/signal_decoder/signal_decoder.cpp:397-676 | over every run a decoder that forgets nothing has the same levels, phases and results |
| DecoderCompiler.ExpressionEqual | components/signal_decoder/signal_decoder.cpp:69-93 | equality of the parts the kinds read, within the counts |
| DecoderCompiler.CheckRulePairs | components/signal_decoder/signal_decoder.cpp:250-270 | accepts exactly when no two enabled rules share an id or contradict each other, and otherwise names a real fault |
| DecoderCompiler.CompileRule | components/signal_decoder/signal_decoder.cpp:276-372 | accepts exactly the rules that pass every check and carries them over |
| DecoderCompiler.Compile | components/signal_decoder/signal_decoder.cpp:228-393 | succeeds exactly for the acceptable configurations, with tables that stem from the enabled rules in order and satisfy every table invariant; a failure names the first check that fails, and where |
| DecoderCompiler.EnabledRules | components/signal_decoder/signal_decoder.cpp:276-279 | the enabled rules, each once, in order |
| DecoderMeaning.CompilationKeepsMeaning | components/signal_decoder/signal_decoder.cpp:228-393 | each enabled rule, judged by input id, has the truth value of its compiled form, judged by index, at every instant and on any evidence |
| DecoderMeaning.SameExpressionSameMeaning | components/signal_decoder/signal_decoder.cpp:69-93 | rules the compiler calls equal mean the same on any evidence |
| DecoderMeaning.FamiliesPartition | components/signal_decoder/signal_decoder.cpp:374-390 | every compiled rule is in exactly one of the three families |
| DecoderMeaning.NoSelfContradiction | components/signal_decoder/signal_decoder.cpp:250-270 | no two compiled rules of one kind share an expression and differ in the position, movement or fault they stand for |
| DecoderMeaning.RefusedConflictsAreReal | components/signal_decoder/signal_decoder.cpp:250-270 | rules of different kinds, or with the same value, are never refused as conflicting |
| DecoderMeaning.SameExpressionExactly | components/signal_decoder/signal_decoder.cpp:55-93 | two expressions are called equal exactly when what is read of them is the same, predicate by predicate |
| SignalDecoder.SignalDecoder.constructor | components/signal_decoder/signal_decoder.cpp:395 | a new decoder object is the initial machine |
| SignalDecoder.SignalDecoder.MeasureRun | components/signal_decoder/signal_decoder.cpp:157-178 | the loop over the ring finds the run and its oldest edge |
| SignalDecoder.SignalDecoder.EvaluatePredicate | components/signal_decoder/signal_decoder.cpp:127-193 | the value and the wake-up candidates of one predicate |
| SignalDecoder.SignalDecoder.EvaluateExpression | components/signal_decoder/signal_decoder.cpp:195-213 | any group all of whose predicates hold, and the nearest of their wake-ups |
| SignalDecoder.SignalDecoder.RunLifecycles | components/signal_decoder/signal_decoder.cpp:488-564 | the four in-place passes settle every movement rule |
| SignalDecoder.SignalDecoder.LifecycleDeadlines | components/signal_decoder/signal_decoder.cpp:566-600 | the wake-ups of the lifecycles are considered with those of the predicates |
| SignalDecoder.SignalDecoder.Arbitrate | components/signal_decoder/signal_decoder.cpp:602-674 | the in-place arbitration is the specified one |
| SignalDecoder.SignalDecoder.Evaluate | components/signal_decoder/signal_decoder.cpp:474-676 | the whole in-place evaluation is the specified one |
| SignalDecoder.SignalDecoder.AcceptTime | components/signal_decoder/signal_decoder.cpp:685-692 | a call is accepted unless the tick went backwards |
| SignalDecoder.SignalDecoder.Initialize | components/signal_decoder/signal_decoder.cpp:397-406 | the object does what the machine step says, the refusals included |
| SignalDecoder.SignalDecoder.Update | components/signal_decoder/signal_decoder.cpp:408-420 | likewise, with the edge pushed on a change of level only |
| SignalDecoder.SignalDecoder.SetMonitoringHealthy | components/signal_decoder/signal_decoder.cpp:422-426 | likewise |
| SignalDecoder.SignalDecoder.Advance | components/signal_decoder/signal_decoder.cpp:428-431 | likewise |
| RestoreModel.Selected | components/backup_recovery/restore_staging.cpp:105-128 | the selected slot is readable and valid |
| RestoreModel.UpdateIsAtomic | components/backup_recovery/restore_staging.cpp:105-147 | wherever an update of the spare slot is cut off, a reader selects exactly the old record or exactly the new one, and readable records stay consecutive |
| RestoreModel.FourteenAtMost | components/backup_recovery/restore_staging.cpp:215-360 | the bounds on records keep every sequence number at or below fourteen, reached only by the last failure |
| RestoreModel.FollowingKeepsBounds | components/backup_recovery/restore_staging.cpp:246-353 | every record the protocol may publish over another stays within the bounds and raises the number by one |
| RestoreModel.ReadsSelectLinked | components/backup_recovery/restore_staging.cpp:113-122 | whichever slots cannot be read, the record selected is the current one, none, or the one over which the current one was published |
| RestoreModel.UpdateKeepsLinks | components/backup_recovery/restore_staging.cpp:105-147 | an update from whatever record was read, cut off anywhere, keeps the records linked and bounded; a read that missed the current record lowers the number by one at most, and only one that hid an announced attempt lowers the count of attempts, by one at most |
| RestoreModel.AttemptUncountedExactly | components/backup_recovery/restore_staging.cpp:113-122 | an attempt goes uncounted if and only if the slot of the current record could not be read, the other slot could, and the current record is itself the announcement of an attempt over the record read |
| RestoreStaging.RestoreStaging.EraseNvs | components/backup_recovery/restore_staging.cpp:275-278 | NVS is erased only under a current Applying record, with a payload that matches its digest, and the recorded attempts with the hidden ones account for every erase |
| RestoreStaging.RestoreStaging.ReadCurrentManifest | components/backup_recovery/restore_staging.cpp:105-128 | the loop selects the valid record with the highest number among the slots that can be read, and counts the reads that miss the current record and those that hide an announced attempt |
| RestoreStaging.RestoreStaging.WriteManifest | components/backup_recovery/restore_staging.cpp:130-147 | success means the record was read back; a failure or a power loss leaves the old slot, nothing readable, or the new record |
| RestoreStaging.RestoreStaging.Publish | components/backup_recovery/restore_staging.cpp:246-293 | whatever happens, the current record is the old one, the one read or the new one, and the invariant holds |
| RestoreStaging.RestoreStaging.StageRestoreImage | components/backup_recovery/restore_staging.cpp:163-195 | success leaves one Ready record over a payload that matches its digest; a call cut off once that record is in its slot has begun the staging just the same; NVS is not touched |
| RestoreStaging.RestoreStaging.Attempt | components/backup_recovery/restore_staging.cpp:262-309 | an announced application, however it is cut off, keeps the invariant; Applied is current only over an NVS that reads back as the image |
| RestoreStaging.RestoreStaging.ApplyStagedRestoreEarly | components/backup_recovery/restore_staging.cpp:215-309 | at most one erase, only after the payload matched and the raised attempt count was published; an undisturbed call applies exactly when the record can still be applied, and then NVS is the payload; it lets the boot go on past a torn NVS only when the restore was given up or the record was not read |
| RestoreStaging.RestoreStaging.ConfirmStagedRestore | components/backup_recovery/restore_staging.cpp:311-338 | the record read, if Applied, becomes Validated with a restart; if Validated, the partition is erased, and the staging has ended once no record is left; otherwise nothing changes |
| RestoreStaging.RestoreStaging.RetryAppliedRestore | components/backup_recovery/restore_staging.cpp:340-360 | rearms exactly an Applied or Validated record |
| RestoreStaging.RestoreStaging.EraseStagedRestore | components/backup_recovery/restore_staging.cpp:362-367 | success leaves no record; cut short, the erase leaves any of the slots as they were |
| RestoreStaging.RestoreStaging.Boot | main/app_main.cpp:26-113 | an automatic restart follows a record with a higher number, but for the reads that missed the current one; an undisturbed boot completes an application that may still be attempted and leaves NVS equal to the image; once applied, a boot that starts confirms to Validated and the next erases the staging, and one that cannot use the image rearms it; the application never runs on an NVS torn by a restore, in this boot or an earlier one, unless the restore was given up or the record could not be read |
| RestoreStaging.RestoreStaging.StartApplication | main/app_main.cpp:34-113 | what the rest of an undisturbed boot makes of every record: confirmed, rearmed or left alone, and how the boot then ends |
| RestoreStaging.RestoreStaging.UndisturbedRestore | components/backup_recovery/restore_staging.cpp:163-338 | while every flash operation succeeds, three boots take a staged image from Ready to an erased staging partition, with NVS equal to the image when the application first starts and one erase in all |
| RestoreStaging.RestoreStaging.PowerOn | main/app_main.cpp:26-113 | after power is applied the device restarts itself at most fourteen times, and once more for every read that missed the current record |
| RestoreStaging.RestoreStaging.AnyRun | components/backup_recovery/restore_staging.cpp:163-360 | over any number of power cycles, with losses and failures anywhere, reads and the staging call included, one staging, whether it has ended or not, has cost at most three erases and one more for every read that hid an announced attempt, and every erase is counted; no record ever carries a number above fourteen |
| RestoreMishap.FourErases | components/backup_recovery/restore_staging.cpp:113-122 | for every image that can be staged there is a run with one hidden attempt and four erases, so the bound is met |
| GateController.OnlyRequestsCommand | components/gate_controller/gate_controller.cpp:138-178 | only a request commands the actuator, never over a pulse or a blocking fault; a rejection changes nothing |
| GateController.BootForgets | components/gate_controller/gate_controller.cpp:131-137 | a boot keeps the target, believes nothing else, cancels travel and begins to wait for the endpoint it read to last |
| GateController.SequentialPressesWhenItHelps | components/gate_controller/gate_controller.cpp:18-82 | one button: it is pressed exactly when the gate is not on its way to the target and the press would not send it the opposite way, and the believed state follows the operator cycle |
| GateController.SequentialTargets | components/gate_controller/gate_controller.cpp:18-82 | with one button, which end the gate is heading for after a request, whether or not the request pressed |
| GateController.DirectionalAlwaysHeadsForTarget | components/gate_controller/gate_controller.cpp:84-108 | two buttons: the right one is pressed exactly when the gate is not on its way, and afterwards it always is |
| GateController.RefusedExactlyWhen | components/gate_controller/gate_controller.cpp:138-158 | a request is refused exactly while a pulse runs, under a blocking fault, or when the operator lacks the input it needs |
| GateController.BenchPulsesPress | components/gate_controller/gate_controller.cpp:159-178 | a request for a pulse alone presses the one button, or the one for the target, and moves no belief |
| GateController.EndpointsMean | components/gate_controller/gate_controller.cpp:183-222 | what a stable endpoint, a contradiction and a gate between its ends make of state, target, movement, fault and timers |
| GateController.StopsRememberTheWay | components/gate_controller/gate_controller.cpp:237-277 | whatever stops a gate, the way it was moving is remembered |
| GateController.FaultsMean | components/gate_controller/gate_controller.cpp:247-286 | which events raise and clear which faults |
| GateController.AskingTwiceReverses | components/gate_controller/gate_controller.cpp:18-82 | a moving gate is turned round by asking twice |
| RuntimeInvariants.ReduceSupervises | components/gate_controller/gate_controller.cpp:127-289 | every transition keeps target, direction and remembered direction in agreement and starts and cancels the travel deadlines its next state needs |
| RuntimeInvariants.EventKeepsSupervision | components/gate_runtime/gate_runtime.cpp:250-315 | a movement is believed exactly while its travel deadline is armed, through every event |
| RuntimeInvariants.EventKeepsPulse | components/gate_runtime/gate_runtime.cpp:250-315 | snapshot, guard and pulse deadline keep telling the same story |
| RuntimeInvariants.TakingShowsFault | components/gate_runtime/gate_runtime.cpp:167-234 | whatever new result is taken over, the fault shown is the one it calls for |
| RuntimeInvariants.TakingFollowsDecoder | components/gate_runtime/gate_runtime.cpp:214-233 | a new healthy result moves the controller where the decoder sees the gate |
| RuntimeInvariants.FeedingNumbers | components/signal_decoder/signal_decoder.cpp:408-420 | feeding levels renumbers the result at most once per level, and not at all only if it is unchanged |
| RuntimeInvariants.SameNumberSameResult | components/gate_runtime/gate_runtime.cpp:167-174 | skipping a result by its number never loses a change |
| RuntimeInvariants.AdvancingKeeps | components/gate_runtime/gate_runtime.cpp:236-248 | a step of the decoder keeps the whole coupling |
| RuntimeInvariants.ExpirePulseKeeps | components/gate_runtime/gate_runtime.cpp:325-334 | the end of a pulse, and of nothing else, frees the guard |
| RuntimeRuns.NextKeeps | components/gate_runtime/gate_runtime.cpp:250-350 | every step of the owner task keeps the invariant |
| RuntimeRuns.BootIsConsistent | components/gate_runtime/gate_runtime.cpp:371-382 | the owner task starts in it |
| RuntimeRuns.EveryRunFromPowerUp | components/gate_runtime/gate_runtime.cpp:371-402 | in every state any run reaches: Opening and Closing hold exactly while their deadlines are armed, the three pulse flags are equal, and with a decoder the fault is DecoderFault exactly when the last published health is ambiguous or monitoring-failed |
| RuntimeRuns.StepPulses | components/gate_runtime/gate_runtime.cpp:250-282 | a pulse starts only from standstill of the pulse machinery, by a request, with no blocking fault, and so with a decoder only on a healthy result; it ends only when due |
| RuntimeRuns.RequestsAreServed | components/gate_runtime/gate_runtime.cpp:255-282 | with the guard free, no blocking fault and working hardware, a request presses exactly when the gate is not on its way to the target, or, with one button, the press would not send it the other way; a bench request always does |
| RuntimeRuns.RequestsPress | components/gate_runtime/gate_runtime.cpp:255-282 | an admitted request presses the button the operator has for it, for exactly the time configured for that button |
| RuntimeRuns.GapIsReal | components/gate_controller/relay_pulse_guard.cpp:5-8 | the gap the guard enforces on ticks is a gap in real time |
| RuntimeRuns.PulsesAreSpaced | components/gate_runtime/gate_runtime.cpp:255-282 | over every run, in real time and across any number of wraps, pulse starts are at least the configured interval apart |
| RuntimeRuns.RefusedRequestsLeaveNoTrace | components/gate_runtime/gate_runtime.cpp:255-270 | a request refused by the reducer, the guard or the hardware changes nothing |
| RuntimeRuns.ContradictionHolds | components/gate_controller/gate_controller.cpp:179-216 | contradicting endpoints stop the controller until a stable Between: no other step clears the fault or starts a pulse |
| RuntimeSleep.NothingFallsDueAsleep | components/gate_runtime/gate_runtime.cpp:352-369 | while the owner task sleeps as long as it computed, nothing armed falls due, wrapping included |
| RuntimeSleep.ProcessingLeavesNothingDue | components/gate_runtime/gate_runtime.cpp:317-350 | once the timers have been processed nothing armed is due, the deadlines armed meanwhile and the decoder wake-up included |
| RuntimeWakes.WaitEndsInTime | components/gate_runtime/gate_runtime.cpp:352-369 | the wait computed on the 32-bit clock never outlasts the wake-up that the decoder of real time asked for |
| RuntimeWakes.PromptTasksArePunctual | components/gate_runtime/gate_runtime.cpp:317-402 | an owner task that keeps to its waits gives its decoder a punctual run: every wake-up is taken exactly, every sample before the next one; and its 32-bit view shows the decoder of real time throughout |
| RuntimeWakes.SleepingTasksAgree | components/gate_runtime/gate_runtime.cpp:317-402 | so the task ends with the phases, result, number and wake-up that its decoder would have if it had been polled every millisecond, or in any other punctual way, on the same evidence |
| RuntimeWakes.StartIsSound | components/gate_runtime/gate_runtime.cpp:371-382 | the task starts in such a state |
| RuntimeWakes.PromptTasksGoOn | components/gate_runtime/gate_runtime.cpp:352-402 | whatever prompt run has been taken, looking at the timers after exactly the computed wait continues it, as long as the next wake-up lies within the horizon |
| RuntimeTravel.MovementsStartArmed | components/gate_runtime/gate_runtime.cpp:287-299 | whatever starts a movement arms its deadline one travel time ahead |
| RuntimeTravel.MovementsEnd | components/gate_runtime/gate_runtime.cpp:250-350 | however a run goes, once the timers are processed at or after the travel deadline a movement that was not announced anew is no longer believed |
| RuntimeTravel.ObservationsSettle | components/gate_controller/gate_controller.cpp:183-222 | without a decoder, an observation still pending when its stability time is over is believed, contradictions included |
| RuntimeTravel.ObservationsWait | components/gate_runtime/gate_runtime.cpp:287-350 | while no other observation is reported, no admitted request stops or reverses the gate and the stability time is not over, the pending observation keeps waiting and the stable one stays what it was |
| RuntimeTravel.LastingObservationsAreBelieved | components/gate_controller/gate_controller.cpp:179-222 | without a decoder, a reported observation that only such steps follow is believed when the timers are next looked at after its stability time, and not before |
| RuntimeTravel.BootObservationsAreBelieved | components/gate_runtime/gate_runtime.cpp:371-382 | the endpoint found at boot is believed in the same way: not before its stability time is over, and then |
| GateHardware.DrivingOne | components/gate_hardware/gate_hardware.cpp:53-76 | driving one output raises or lowers that one and no other |
| GateHardware.PinsShowCommands | components/gate_hardware/gate_hardware.cpp:40-76 | raised outputs are pins at their active levels: step, open and close each at its own |
| GateHardware.GateHardware.DeactivateAll | components/gate_hardware/gate_hardware.cpp:293-308 | no output is ever raised by it, whichever writes fail; without an error every driven pin stands at its inactive level |
| GateHardware.GateHardware.ActivateCommand | components/gate_hardware/gate_hardware.cpp:272-291 | on success the pin of the commanded output, and no other driven pin, stands at its active level; on failure none is raised that was not; at most one ever is |
| GateHardware.GateHardware.StartMonitoring | components/gate_hardware/gate_hardware.cpp:201-257 | monitoring starts only with every output driven inactive, each of them inactive already when its pin was made an output |
| GateRuntime.GateRuntime.constructor | components/gate_runtime/gate_runtime.cpp:407-432 | a new runtime is the initial view |
| GateRuntime.Start | components/gate_runtime/gate_runtime.cpp:407-450 | the runtime starts with the compiled decoder of its rules, if it uses one, and no output raised; rules that do not compile start nothing |
| GateRuntime.GateRuntime.StartPulse | components/gate_runtime/gate_runtime.cpp:255-282 | admission and output come before any commit; a refusal leaves everything, a success raises exactly the commanded output |
| GateRuntime.GateRuntime.ApplyEvent | components/gate_runtime/gate_runtime.cpp:250-315 | the object does what the model says and reports exactly why a request was refused |
| GateRuntime.GateRuntime.ApplyDecoderResult | components/gate_runtime/gate_runtime.cpp:167-234 | likewise for taking a result over |
| GateRuntime.GateRuntime.ConsumeCustomSample | components/gate_runtime/gate_runtime.cpp:236-248 | likewise for a sample, each level an update or else a first value |
| GateRuntime.GateRuntime.ProcessExpired | components/gate_runtime/gate_runtime.cpp:317-350 | likewise for the timers, in their order |
| GateRuntime.GateRuntime.EndPulse | components/gate_runtime/gate_runtime.cpp:325-334 | a due pulse ends even when the GPIO write fails; while no write has failed, none is left raised |
| GateRuntime.GateRuntime.OutputsFollowPulse | components/gate_hardware/gate_hardware.cpp:272-308 | while no write has failed, an output is raised exactly while a pulse is active, and it is the commanded one |
| GateRuntime.GateRuntime.WaitMs | components/gate_runtime/gate_runtime.cpp:352-369 | the wait is the shortest remaining time of all armed deadlines, zero once one is reached, none when nothing is armed |
| GateRuntime.GateRuntime.Boot | components/gate_runtime/gate_runtime.cpp:371-382 | boot event and first sample |
| GateRuntime.GateRuntime.Turn | components/gate_runtime/gate_runtime.cpp:384-402 | one turn of the loop of the owner task is two model steps and keeps the invariant; the hardware then holds the command of the last pulse started, until that pulse ends |
| SensorDebouncer.SensorDebouncer.Update | components/gate_hardware/sensor_debouncer.cpp:13-25 | the object flips, reports and remembers as the 32-bit rule says |
| SensorDebouncer.RemembersRun | components/gate_hardware/sensor_debouncer.cpp:13-18 | the candidate is the latest run of equal samples and its beginning |
| SensorDebouncer.FlipsAreNeverEarly | components/gate_hardware/sensor_debouncer.cpp:13-25 | in unbounded time a flip needs a run at least as old as configured; for runs younger than the clock that is also enough |
| SensorDebouncer.DebouncesExactly | components/gate_hardware/sensor_debouncer.cpp:13-25 | while samples keep coming, the stable value is the real-time definition on every history, however long its runs |
| ConfigValidator.CheckCollisions | components/app_config/app_config.cpp:338-360 | no collision error exactly when all used pins differ |
| ConfigValidator.Validate | components/app_config/app_config.cpp:169-381 | the collected errors are exactly those the configuration deserves, field by field and code by code, and none exactly for a valid one |
| ConfigValidator.CheckSetupCode | components/app_config/app_config.cpp:131-144 | comparing with the twelve listed codes refuses exactly equal digits and the two runs |
| ConfigValidator.CheckPin | components/app_config/app_config.cpp:118-129 | the search of the forbidden pins finds the safe ones |
| ConfigCodec.EncodeDecoder | components/app_config/config_repository.cpp:156-201 | the nested loops fill the record as specified, unused slots left zero |
| ConfigCodec.DecodeDecoder | components/app_config/config_repository.cpp:203-271 | refuses exactly the records with a count beyond its array and reads the others as specified |
| ConfigRoundTrip.ReadCopied | components/app_config/config_repository.cpp:134-144 | a string without zero bytes that leaves room for one survives its fixed array |
| ConfigRoundTrip.DecodedEncoded | components/app_config/config_repository.cpp:274-469 | reading what was stored gives the configuration back with only the other profile, the other topology and unused slots reset |
| ConfigRoundTrip.SurvivesExactlyWhenItFits | components/app_config/config_repository.cpp:156-271 | that holds if and only if strings are free of zeros, pins fit a signed byte, labels fit their slot and enumeration bytes are canonical |
| ConfigRoundTrip.SavingLoadedWritesSameBytes | components/app_config/config_repository.cpp:402-469 | saving what was loaded writes the very bytes that were there, and loading settles after one round |
| ConfigRoundTrip.LoadedIsSettled | components/app_config/config_repository.cpp:203-391 | whatever is read from any record already is what a further round would leave |
| KeptValidity.KeptRulesCompile | components/signal_decoder/signal_decoder.cpp:228-393 | rules that compile still compile once their unused slots have been reset |
| KeptValidity.KeptValidates | components/app_config/app_config.cpp:169-381 | a valid configuration comes back valid |
| ConfigRepository.SaveThenLoad | components/app_config/config_repository.cpp:274-469 | what a successful save stored is picked, accepted, and read back |
| ConfigRepository.LoadedMaySaveAgain | components/app_config/config_repository.cpp:274-469 | what was loaded is as valid as before and fits the record, so that it may be saved again, and the save writes the very bytes that were there |
| ConfigRepository.MigratedFits | components/app_config/config_repository.cpp:285-331 | a configuration migrated from schema 1, 2 or 3 fits, so that storing it loses nothing |
| ConfigRepository.LegacyMeans | components/app_config/config_repository.cpp:300-331 | what a configuration of schema 1 or 2 becomes, field by field |
| ConfigRepository.MisplacedBlobs | components/app_config/config_repository.cpp:285-340 | which error a blob of another generation under a key gives, and that no older key is looked at once a newer one exists |
| ConfigRepository.ConfigRepository.ReadStored | components/app_config/config_repository.cpp:285-340 | reading the keys in order and filling in what older schemas lack gives the specified record, or the specified error |
| ConfigRepository.MigratedLoadsAgain | components/app_config/config_repository.cpp:274-400 | the second load finds the current schema and yields the same configuration |
| ConfigRepository.ConfigRepository.Encode | components/app_config/config_repository.cpp:402-459 | the straight-line part of the record |
| ConfigRepository.ConfigRepository.Save | components/app_config/config_repository.cpp:402-469 | stores exactly valid configurations, as the specified record, and refuses every other |
| ConfigRepository.ConfigRepository.Decode | components/app_config/config_repository.cpp:336-391 | the straight-line part of reading |
| ConfigRepository.ConfigRepository.Load | components/app_config/config_repository.cpp:274-400 | hands out exactly what the newest key holds, if that is valid, and first stores what it migrated |
| ProfileCodec.PrintDecoder | components/gate_profile/gate_profile.cpp:80-146 | the nested loops print the specified tree |
| ProfileCodec.ParseDecoder | components/gate_profile/gate_profile.cpp:328-468 | accepts exactly the readable trees and reads them as specified |
| ProfileRoundTrip.OutcomeSurvives | components/gate_profile/gate_profile.cpp:51-61 | every outcome is printed under a name that parses back to it, with the members it does not use reset |
| ProfileRoundTrip.ParsedPrinted | components/gate_profile/gate_profile.cpp:80-468 | parsing a printed well-formed configuration returns it with only inactive members and unused slots reset |
| ProfileRoundTrip.ActivePrintsSameTree | components/gate_profile/gate_profile.cpp:80-146 | what comes back prints to the same tree |
| ProfileRoundTrip.ParsedIsSettled | components/gate_profile/gate_profile.cpp:328-468 | whatever is accepted is well formed and survives another round unchanged |
| ProfileRoundTrip.SurvivesExactlyWhenTold | components/gate_profile/gate_profile.cpp:80-468 | exactly the well-formed configurations survive being printed and parsed |
| Pbkdf2.IntEncodes | components/app_config/password.cpp:33-37 | the block number is encoded most significant octet first |
| Pbkdf2.ShorterKeyIsPrefix | components/app_config/password.cpp:31-62 | a shorter key is a prefix of a longer one |
| Pbkdf2.DeriveBlock | components/app_config/password.cpp:38-59 | one block is the exclusive or of all its rounds |
| Pbkdf2.DerivePbkdf2 | components/app_config/password.cpp:19-67 | computes PBKDF2 of section 5.2 of RFC 8018 for every iteration count of at least one and every output length |
| Pbkdf2.DeriveAdminPassword | components/app_config/password.cpp:71-94 | the stored verifier accepts the password it was derived from |
| Pbkdf2.NoDifference | components/app_config/password.cpp:108-113 | accumulating differences loses none |
| Pbkdf2.VerifyAdminPassword | components/app_config/password.cpp:96-114 | accepts exactly the password whose derived key is the verifier, unless the hash fails |
| Pbkdf2.DeriveKey | components/backup_recovery/backup_envelope.cpp:76-137 | the separately written loop computes the same function for its 32-byte key, refuses exactly the inputs outside its limits, and clears the key when the hash fails |
| Pbkdf2.SingleBlock | components/backup_recovery/backup_envelope.cpp:83-86 | a key of one hash length is the first block |

## Left out

- Diagnostics of the decoder, logging, enum-to-string functions and the HomeKit projection: they change no state.
- HTTP routes, web interface, HomeSpan, Wi-Fi, captive DNS, OTA transport and sessions: plumbing around the parts modelled here.
- Null pointers and exhausted memory: the error returns for them are not modelled.
- AES-GCM, the backup header and its parser: only the key derivation of the backup envelope is modelled.
- DecoderWrap.FirmwareRunsAgree: supposes the horizon stated as `InHorizon`, that is, calls less than 2^31 ms apart and no consulted timestamp a full wrap old; beyond it the 32-bit comparisons of the firmware do misread (see DecoderWrap.StaleAgeLimitLooksAhead).
- DecoderRuns.PunctualRunsAgree: speaks of polls that are not late; a late poll stamps phases with its own instant and is not equivalent to an on-time one.
- RestoreStaging.RestoreStaging.AnyRun: a staging that another one replaces ends when the partition begins to be erased; if that erase is cut short, what it leaves of the earlier staging may be attempted again, which is not counted.
- RestoreStaging.RestoreStaging.PowerOn: a device whose manifest reads keep missing the current record may restart itself without end, so the bound on restarts counts those reads. A boot that loses power during a manifest read is left out: it changes nothing.
- RestoreStaging.RestoreStaging.Boot: after three failed attempts NVS may stay torn and the restore is marked failed, as in the code; what NVS initialisation, the stored configuration and the services make of an NVS content are parameters, as are missing partitions.
- RuntimeRuns.EveryRunFromPowerUp: models the owner task alone; the maintenance interlock, which another task sets while a request may already be queued, is not part of it, and neither is the obstruction acknowledgement, which nothing sends.
- RuntimeSleep.ProcessingLeavesNothingDue: supposes that the decoder is asked in the order of time, which holds while calls are less than 2^31 ms apart.
- RuntimeWakes.PromptTasksArePunctual: supposes a task that is not late and samples that are handled before the wake-up they bring about; a late turn is as DecoderRuns.PunctualRunsAgree says.
- GateRuntime.GateRuntime.OutputsFollowPulse: once a GPIO write has failed only `AtMostOneRaised` is promised; a level that could not be lowered stays raised.
- DecoderOrder.RunsIgnoreOrder: the result's number and the values of withheld channels are not claimed to be the same.
- GateRuntime.GateRuntime.Turn: the endless loop around it, the queue and the notification of callers are not modelled.
- The tasks that sample the inputs: only the debouncer they use and the samples they send are modelled; a sample older than the decoder's last call is refused, as in the code.
- SensorDebouncer.DebouncesExactly: supposes that samples come less than 2^32 ms minus the debounce time apart; without that only SensorDebouncer.FlipsAreNeverEarly holds.
- ConfigRepository.ConfigRepository.Save: asks that the counts of custom rules keep the validating loops, and those of a valid configuration the encoding loops, inside their arrays, which the code takes for granted. A record stands for its bytes; the byte order of its integers is not modelled.
- ProfileTree: an object is the map from member names to the values that are looked up, so member order and later duplicates are not modelled; metadata, the actuator part of a profile and the text scanner are left out.
- Pbkdf2.DerivePbkdf2: HMAC-SHA-256 is any function with 32-octet values, which may fail; output buffers are shorter than 2^32 octets.

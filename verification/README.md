# Verified model of kvcot

kvcot compares reasoning traces generated with a full KV cache and with R-KV, a cache that is
compacted to a budget. This project models the parts of it whose behaviour no finite set of
tests settles, and proves what they are relied on for. `dafny verify dfyconfig.toml` checks all
of it.

Five linked components:

1. **The compaction schedule.** `RkvSchedule` holds the one-token-at-a-time walk, its closed
   form, the exact event list and the retention predictions. `RkvCache` holds the content side:
   which absolute positions survive each gather, and the wrapper that checks it. `Preflight` and
   `ScreenValidity` relate the trace-length preflight to the screen it anticipates, and
   `Selection` the selection writer to its loader.
2. **The attempt directory.** `AttemptArtifacts` is the reference manifest and its verifier,
   `AttemptLifecycle` one attempt as a sequence of immutable writes, any of which may fail before
   or after its rename takes effect, and `ProgressJournal` the checker of a worker's journal.
3. **Measurement.** `Timer`, `PeakMemory`, `CallTrace` and `BranchEval`: nested timing, a peak
   counter that inner measurements reset, attribution of calls to passes by counting, and the
   full and compact scorers with the memory guard that admits them.
4. **Fixed-trace statistics.** `FixedTrace` computes per-example scores and per-fraction curves
   and shows that their means agree; `AccuracyGate` and `SelectionCompleteness` are the gates
   that turn joins into bijections.
5. **Row selection.** `RowSelection`: filter and sort a dataset, attempt rows in order until one
   qualifies, freeze it. `Sorting` is Python's stable sort.

`Prelude` holds counting, summing and the little real arithmetic the others share, and
`CanonicalJson` the JSON text of integer lists that the trace hash is taken of.

Floats are mathematical reals and counts mathematical integers. SHA-256 is a function that is
injective, on file contents or texts, where a property needs it to be. Probe fractions are numbers
of eighths. A fault of an immutable write is one of two: the file does not appear, or it appears
and the caller is told that the write failed (the directory sync after the rename raised); either
way an Exception or an interrupt is raised, and the steps between writes may raise as well. A
measured operation is the tree of the calls it made and how each ended, so any handling of inner
failures is covered.

Where code and documentation disagree, the model follows the code:

- The preflight calls its two numbers mathematical bounds on what a run can achieve, and stops
  where no valid screen is possible. For one trace both are right, at every budget, exactly when
  no compression is attempted between the inspected length (prompt plus think span) and the f=1
  cut, which also counts tokens before the span: `Preflight.PromisesHoldIff`,
  `Preflight.EveryStopSoundIff`. A span that opens the generation always qualifies;
  `Preflight.StopCanMisleadPastTheSpan` is a trace that does not.
- Its rate STOP compares against `min_actual_compression_rate` even when the screen will check the
  meaningful-compression rate instead. The STOP still rules the valid screen out exactly when the
  thresholds agree, or when that rate and the retention ceiling add up to at most one:
  `Preflight.RateStopConclusive`, `Preflight.StopsRuleOutIff`. `Preflight.RateStopCanMislead`
  shows a configuration for which it does not.
- `--max-selected` is documented as at most that many candidates in row order, but it is any
  integer and becomes a Python slice: a negative one drops candidates from the end.
  `Selection.TakesFirstIff` says when the documentation is right,
  `Selection.NegativeCapSelectsFromTheEnd` shows a file the loader then accepts.
- The loader compares the recorded cap with the configuration and never with the number of
  selected ids: `Selection.LoaderKeepsCapIff`, `Selection.OverfullSelectionAccepted`.
- A failed attempt is meant never to look complete. `AttemptLifecycle.AcceptedIff` shows when one
  does: once `final.json` is there, an interrupt before the coordinator returns, an exception there
  whose `failure.json` cannot be written, anything raised by the closing report, or a write of
  `final.json` that took effect, was reported as failed and left no record of that.
  `AttemptLifecycle.SilentlyCompleteRun` has such runs, two of them without any failing write.
- The per-token growth of the memory guard leaves the batch dimension out, so it is right exactly
  for single-batch caches (`BranchEval.GrowthRightIff`), the only ones the workers admit.
- Its reallocation reserve, documented as conservative headroom for the old tensor an append
  still holds, is one horizon of growth, which does not depend on the cache's length.
  `BranchEval.AcceptedBoundsAppendsIff` says exactly when it suffices,
  `BranchEval.ReserveCanBeTooSmall` is a snapshot for which it does not.

## Model

| member | source | states |
|---|---|---|
| RkvSchedule.WalkSchedule | src/kvcot/analysis/rkv_schedule.py:68-103 | the loop with its delayed flag yields, at every position, exactly the closed form: length = position - max(0, last attempt - budget), event iff that position attempts and exceeds the budget |
| RkvSchedule.LastAttemptIsLatest | src/kvcot/analysis/rkv_schedule.py:76-103 | the closed form's last attempt is an attempt, and no position after it is one |
| RkvSchedule.EvictionStep | src/kvcot/analysis/rkv_schedule.py:84-103 | each later event evicts min(period, excess over max(prompt, budget)); an attempt at length equal to the budget evicts nothing |
| RkvSchedule.LengthBounds | src/kvcot/analysis/rkv_schedule.py:68-103 | min(pos, B) <= length <= min(pos, B + D - 1) at every position |
| RkvSchedule.LengthBoundsAreTight | src/kvcot/analysis/rkv_schedule.py:68-103 | both ends of the sawtooth are reached, for every prompt, budget and period |
| RkvSchedule.LengthMonotoneInBudget | src/kvcot/analysis/rkv_schedule.py:68-103 | raising the budget never lowers a length |
| RkvSchedule.PredictedEventsExact | src/kvcot/analysis/rkv_schedule.py:141-158 | the event list is strictly increasing, is [P if P > B] followed by every a in (max(P,B), X] with (a-1) % D == 0, and its count has a closed form |
| RkvSchedule.EventsAccountForEveryEviction | src/kvcot/analysis/rkv_schedule.py:68-103 | position = physical length + everything the listed events evicted, at every position |
| RkvSchedule.SimulateCacheLengthsExact | src/kvcot/analysis/rkv_schedule.py:106-138 | every requested target gets its closed-form length; the call errs exactly when a target lies before the prompt |
| RkvSchedule.PredictRetentionExact | src/kvcot/analysis/rkv_schedule.py:171-189 | predicted retention is closed-form length over position for every cut |
| RkvSchedule.RetentionInUnitInterval | src/kvcot/analysis/rkv_schedule.py:161-168 | retention lies in (0, 1], and is 1 exactly when nothing was evicted |
| RkvSchedule.EligibilityAntitoneInBudget | src/kvcot/cli.py:1947-1959 | a candidate predicted eligible at a budget is predicted eligible at every smaller one |
| RkvSchedule.PredictedEligibleIff | src/kvcot/cli.py:1947-1959 | which candidates are predicted eligible: no cut before the prompt, the ninth cut kept at most the ceiling, and at least the required number of scored cuts kept at most the ceiling |
| RkvCache.CompactionHolds | src/kvcot/discovery/capture.py:148-178 | a gather by any in-range distinct top-k plus the recent window keeps slot-to-position provenance, distinctness and the ordered newest window |
| RkvCache.CompactionLoses | src/kvcot/discovery/capture.py:148-178 | a compaction loses a position exactly when the cache was longer than the budget; at the budget it only permutes |
| RkvCache.GrowthHolds | src/kvcot/discovery/capture.py:190-191 | appending one entry keeps the same invariant and adds just the new position |
| RkvCache.HeadCache.Prefill | src/kvcot/discovery/capture.py:148-191 | after prefill the cache satisfies the invariant and has the simulator's length; below the budget every slot is its own position, otherwise slot k holds position topk[k] and then come the last window positions, with their entries; it lost a position iff the simulator reports an event |
| RkvCache.HeadCache.DecodeOne | src/kvcot/discovery/capture.py:148-191 | a call that does not compact appends its slot; one that does leaves, in order, the selected slots of the grown cache and then its last window slots, positions and entries alike; every call keeps slot provenance, distinct positions, the recent window and the simulator's length, and events are exactly the calls that lose a position |
| RkvCache.ReconstructionIsGather | src/kvcot/discovery/capture.py:244-258 | the wrapper's pool-then-window reconstruction is the gather by the recomputed physical indices |
| RkvCache.CapturePassesIff | src/kvcot/discovery/capture.py:181-295 | parity passes iff the call was a no-op, or the returned tensors are the recomputed gather and any bookkeeping is the same gather of a well-shaped position map |
| RkvCache.CaptureReportsIff | src/kvcot/discovery/capture.py:181-295 | every field and failure of a capture record: which one is present exactly when, for compactions below and at the budget, raised recomputations, absent or misshapen position maps and bookkeeping |
| RkvCache.GatheredSlots | src/kvcot/discovery/capture.py:165-178 | a kept tensor holds, head by head, the slots that head selected and then its last slots |
| RkvCache.AdoptionKeepsProvenance | src/kvcot/discovery/capture.py:298-370 | adopting bookkeeping that passed parity keeps every slot's provenance and stays duplicate-free |
| Preflight.InspectFixedTrace | src/kvcot/cli.py:1776-1864 | the command's loop and STOP order compute the verdict from the two population statistics |
| Preflight.VerdictSays | src/kvcot/cli.py:1833-1864 | each STOP exactly when: no trace is longer than the budget; some are, but their share is below the rate; the share clears the rate but the mean optimistic retention is above its ceiling; without budget or traces, never |
| Preflight.PromisesHoldIff | src/kvcot/cli.py:1780-1812 | per trace, the two preflight bounds hold at every budget iff no attempt falls between the inspected length and the f=1 cut |
| Preflight.PopulationBounds | src/kvcot/cli.py:1793-1812 | fraction_longer bounds the actual rate from above and mean_optimistic_retention bounds mean f=1 retention from below |
| Preflight.ProceedingIsTight | src/kvcot/cli.py:1793-1864 | where every trace has an empty think span, the preflight is exact: the screen can be valid iff it does not stop and enough traces are longer than the budget |
| Preflight.CanBeValidIff | src/kvcot/analysis/fixed_trace.py:986-1023 | a run's screen can be valid iff enough traces compress, the configured rate gate passes and the mean retention clears its ceiling |
| ScreenValidity.ReasonsIff | src/kvcot/analysis/fixed_trace.py:986-1023 | each reason for an invalid screen is given exactly when its own threshold is missed or its own check failed |
| Preflight.StopIsSound | src/kvcot/cli.py:1833-1864 | a STOP implies that the screen over the same traces is invalid, a rate STOP included if the rate thresholds agree or the rate and retention thresholds add up to at most one |
| Preflight.StopsRuleOutIff | src/kvcot/cli.py:1833-1864 | over all populations, budgets and periods without attempts past the inspected lengths, every STOP implies an invalid screen iff the settings meet that condition |
| Preflight.RateStopSoundIff | src/kvcot/cli.py:1841-1851 | a rate STOP implies a failed rate gate on every population iff the settings' thresholds agree |
| Preflight.RateStopCanMislead | src/kvcot/cli.py:1841-1851 | concrete settings with require_meaningful_compression, and traces on which the rate STOP fires although the screen can be valid |
| Preflight.EveryStopSoundIff | src/kvcot/cli.py:1833-1864 | on a trace alone, every STOP at every budget and under all valid settings implies that its screen cannot be valid, iff no attempt falls between the inspected length and the f=1 cut |
| Preflight.StopCanMisleadPastTheSpan | src/kvcot/cli.py:1776-1837 | an instance at period 128: 110 tokens inspected, the attempt at 129 compresses, and the trace is stopped although its screen can be valid |
| AttemptArtifacts.BuildAttemptReferences | src/kvcot/discovery/attempt_artifacts.py:157-173 | the builder's loop produces the manifest of the listing, final.json excluded |
| AttemptArtifacts.ManifestIsComplete | src/kvcot/discovery/attempt_artifacts.py:157-173 | that manifest names every listed file but final.json exactly once and describes each |
| AttemptArtifacts.ManifestInListingOrder | src/kvcot/discovery/attempt_artifacts.py:157-173 | the references come in listing order, final.json left out |
| AttemptArtifacts.RolesTellPathsApart | src/kvcot/discovery/attempt_artifacts.py:117-154 | the roles: unknown exactly for final.json and unlisted paths, shared only by the same file of several workers and by the two envelope names |
| AttemptArtifacts.CheckReference | src/kvcot/discovery/attempt_verification.py:872-923 | one reference contributes no reason iff it names a present file of known role with that role, size and hash, and each reason exactly when its own comparison fails |
| AttemptArtifacts.VerifyFinalReferenceManifest | src/kvcot/discovery/attempt_verification.py:872-923 | the verifier accepts iff final.json's references are a duplicate-free bijection with all other files, completion included, each matching in role, size and hash |
| AttemptArtifacts.AcceptedSays | src/kvcot/discovery/attempt_verification.py:872-923 | in an accepted directory completion is present and every other file has exactly one reference, with its role, hash and size |
| AttemptArtifacts.BuiltManifestAccepted | src/kvcot/discovery/attempt_artifacts.py:157-173 | round trip: a freshly built manifest is accepted iff completion is on record and every file has a known role |
| AttemptArtifacts.AcceptedDirectoryIsUnique | src/kvcot/discovery/attempt_verification.py:872-923 | tamper evidence: with a collision-free hash, a final.json is accepted in exactly one directory |
| AttemptArtifacts.UnlistedFileRejectsForever | src/kvcot/discovery/attempt_verification.py:872-923 | a file the manifest does not list makes the directory rejected whatever is added later |
| AttemptLifecycle.Attempt.AtomicWrite | src/kvcot/discovery/attempt_artifacts.py:47-66 | write-once: an existing path is refused; otherwise the file appears unless the fault preceded the rename, and the caller learns what was raised, an Exception or an interrupt |
| AttemptLifecycle.Attempt.FinishRun | src/kvcot/discovery/b2a_execute.py:844-924 | completion, manifest, final.json, verification, in that order, any of which may raise or be interrupted, with the best-effort failure record each Exception adds |
| AttemptLifecycle.Attempt.RunCalibration | src/kvcot/discovery/b2a_execute.py:844-957 | the coordinator's handlers: an Exception from anywhere adds failure.json, an interrupt from anywhere adds nothing |
| AttemptLifecycle.Attempt.Execute | src/kvcot/cli.py:2657-2717 | the whole command, its refusals before launch, its fallback completion record and its report, which may raise, equals the run function the theorems are about |
| AttemptLifecycle.RunIsWriteOnce | src/kvcot/discovery/attempt_artifacts.py:47-66 | whatever faults occur, no path is written twice in a run, every write has the content it wrote at its end, and no other file of the command is there |
| AttemptLifecycle.RunLeaves | src/kvcot/cli.py:2657-2717 | for every path, exactly which runs leave it: each record of the command, completion and its fallback, final.json, the three failure records and the files of others, from the faults and what is raised alone, runs refused before launch included; and with which content |
| AttemptLifecycle.FinalStatesOutcome | src/kvcot/discovery/b2a_execute.py:844-895 | final.json states the workers' own overall outcome |
| AttemptLifecycle.RunWithFinal | src/kvcot/discovery/b2a_execute.py:844-924 | if final.json's rename takes effect the run ends normally in the sealed directory, or raises in it plus the failure records that could be added |
| AttemptLifecycle.FinalImpliesCompletion | src/kvcot/discovery/b2a_execute.py:844-895 | final.json present implies completion.json was written earlier and is listed in it with the content it still has |
| AttemptLifecycle.NormalReturn | src/kvcot/cli.py:2657-2700 | the command returns normally iff every step up to a clean verified final.json and its report went well; then the verifier accepts, no failure record exists and final.json was written last |
| AttemptLifecycle.FailureBesideFinalIsFatal | src/kvcot/discovery/b2a_execute.py:886-924 | a failure record beside final.json makes the verifier reject now and after anything written later |
| AttemptLifecycle.AcceptedIff | src/kvcot/discovery/b2a_execute.py:844-957 | the final directory is accepted iff the run succeeded or completed silently, and the command raised over an accepted directory iff it completed silently: final.json was there over a clean directory, and the records of its failed write were lost, its verification was interrupted, its verification raised with failure.json lost, or the report raised |
| AttemptLifecycle.SilentlyCompleteRun | src/kvcot/discovery/b2a_execute.py:844-957 | such runs exist for every collision-free hash and every listing order, two of them without any failing write |
| ProgressJournal.VerifyProgressJournal | src/kvcot/discovery/attempt_verification.py:247-312 | no reason iff all events are well-formed, none failed, every ordered stage completes exactly once with all pairs in order, starts precede completions, and (rkv) exactly 12 distinct pairs and one no-op; it raises iff a completed pair's counters are truthy and no mapping |
| ProgressJournal.CheckEvents | src/kvcot/discovery/attempt_verification.py:247-268 | event by event: no reason iff every timestamp parses, attempt and role are the expected ones, stage and status known, counters a mapping, and nothing failed |
| ProgressJournal.ValidJournalRunsInOrder | src/kvcot/discovery/attempt_verification.py:270-286 | in a valid journal the stages complete in the order of a run, startup to envelope, with both passes and the conversion in between for rkv |
| ProgressJournal.ValidJournalStartsFirst | src/kvcot/discovery/attempt_verification.py:288-295 | in a valid journal a stage that starts anywhere starts before each of its completions, and so does the model load |
| ProgressJournal.ValidJournalPairs | src/kvcot/discovery/attempt_verification.py:297-312 | a valid rkv journal completes exactly twelve real pairs, of distinct timing phases, and one no-op |
| ProgressJournal.KnownStages | src/kvcot/discovery/attempt_verification.py:74-124 | which stages are known, per role |
| ProgressJournal.OrderDecided | src/kvcot/discovery/attempt_verification.py:279-286 | comparing each completion with the one before decides the order of all pairs of stages |
| ProgressJournal.FirstPositions | src/kvcot/discovery/attempt_verification.py:288-295 | comparing minima decides that a started stage starts before it first completes |
| ProgressJournal.VerifyProgressStageCompleteness | src/kvcot/discovery/attempt_verification.py:222-234 | the missing list holds exactly the required stages never seen |
| ProgressJournal.RequiredAreOrdered | src/kvcot/discovery/attempt_verification.py:74-97 | the required stages are the ordered ones, the model-load start, and for rkv the pairs and the no-op |
| ProgressJournal.ValidJournalMissesOnlyLoadStart | src/kvcot/discovery/attempt_verification.py:222-312 | a journal the checker accepts can lack no required stage but model-load start |
| ProgressJournal.CompletenessAddsLoadStart | src/kvcot/discovery/attempt_verification.py:222-234 | on a valid journal the completeness check passes iff a model-load start is on record |
| PeakMemory.CudaMemoryMeasurer.Measure | src/kvcot/discovery/execution_measurement.py:123-168 | a measured call resets the peak, runs its operation, and appends exactly one record whether or not it raised |
| PeakMemory.RecordBracketsItsCall | src/kvcot/discovery/execution_measurement.py:123-168 | a record has its call's phase and completion, the level found before, the level the operation left, and a peak no lower than that |
| PeakMemory.RecordsInPostOrder | src/kvcot/discovery/execution_measurement.py:123-168 | every measured call has one record, in post-order |
| PeakMemory.CudaMemoryMeasurer.MaximumPeakAllocated | src/kvcot/discovery/execution_measurement.py:169-171 | the property is the maximum of the recorded peaks, 0 without records |
| PeakMemory.RecordsSeeKeptLevels | src/kvcot/discovery/execution_measurement.py:123-171 | for any nesting, the recorded maximum is the maximum over the levels seen since each call's last inner reset |
| PeakMemory.RecordedPeakIsTrueIff | src/kvcot/discovery/execution_measurement.py:123-171 | the recorded peak never exceeds the true one, and equals it iff no level an inner reset discarded was higher than all kept ones |
| PeakMemory.RecordedPeakAlwaysTrueIff | src/kvcot/discovery/execution_measurement.py:123-171 | on the nesting alone: whatever the levels, the recorded peak is the true one iff no measured call starts inside another while the other has passed a level that is in no record and is not the present one |
| PeakMemory.FlatPeakIsTrue | src/kvcot/discovery/execution_measurement.py:123-171 | without nesting the recorded peak is the true maximum over all observed instants, failures included |
| PeakMemory.NestedPeakCanBeLost | src/kvcot/discovery/execution_measurement.py:123-139 | a nested call for which it is strictly lower |
| Timer.SynchronizedTimer.Measure | src/kvcot/discovery/execution_measurement.py:42-86 | a measured call takes one reading before and one after its operation and appends its record after the inner ones; it refuses exactly when the clock ran backwards, and returns exactly when the operation completed and it did not refuse |
| Timer.RecordsInPostOrder | src/kvcot/discovery/execution_measurement.py:42-86 | under a monotone clock every call has its record, in post-order |
| Timer.RecordsAreLaminar | src/kvcot/discovery/execution_measurement.py:42-86 | any two records are disjoint or nested, the later one outermost |
| Timer.PhasesFitInSpan | src/kvcot/discovery/execution_measurement.py:42-66 | phases no completed one of which lies inside another add up to at most the enclosing span |
| Timer.TotalFitsIff | src/kvcot/discovery/execution_measurement.py:42-66 | for any calls, they do under every monotone clock iff no completed call of a counted phase lies inside another |
| Timer.PhaseSeconds | src/kvcot/discovery/b2a_execute.py:289-321 | the coordinator's sum succeeds iff each phase has exactly one completed, positive record, and is then their total duration |
| Timer.RequiredPhaseSecondsIff | src/kvcot/discovery/b2a_execute.py:289-297 | a phase's time is that of its one completed record; none, several, or one without positive duration are refused, each with its own error |
| Timer.RequiredPhasesFitInWorkerIff | src/kvcot/discovery/b2a_execute.py:289-321 | what the coordinator adds up from a worker's records is at most the worker's own span, under every monotone clock, iff no counted phase lies inside another |
| Timer.StartupAndLoadSeconds | src/kvcot/discovery/b2a_execute.py:312-321 | for a worker as written, its five setup phases one after another, a successful sum is positive and at most the worker's recorded span |
| Timer.FullKVWorkerFits | src/kvcot/discovery/b2a_workers.py:984-1133 | the FullKV worker's setup and its whole generation together fit in its recorded span, whatever it measured inside the generation |
| Timer.RkvWorkerFits | src/kvcot/discovery/b2a_workers.py:1315-1654 | the R-KV worker's setup and the two pass times it reports together fit in its recorded span, wherever the run ends and whatever it measured inside and after the passes |
| Timer.FirstSecondsIs | src/kvcot/discovery/b2a_workers.py:1624-1629 | a reported pass time is the duration of the first record of its phase, zero without one |
| Timer.NestedPhasesCountTwice | src/kvcot/discovery/b2a_execute.py:297-321 | a completed counted phase directly inside another violates that condition |
| Timer.SetupPhasesDistinct | src/kvcot/discovery/b2a_execute.py:312-315 | the setup phases the coordinator sums are distinct, whatever the role |
| CallTrace.TransitionIsSecondPrefill | src/kvcot/discovery/b2a_workers.py:798-829 | Pass 2 begins at the second prefill, and only there |
| CallTrace.Harness.CallPrefill | src/kvcot/discovery/b2a_workers.py:831-844 | attribution by counting prefills keeps both event lists and both wall-time totals equal to the log split at the second prefill, and adds the call's tokens and time to one pass only |
| CallTrace.Harness.CallDecodeOne | src/kvcot/discovery/b2a_workers.py:846-857 | the same for a decode call, raising ones included |
| CallTrace.Harness.CallSnapshot | src/kvcot/discovery/b2a_workers.py:859-871 | a snapshot's time goes to capture and to Pass 2, whenever it happens |
| CallTrace.PassesCoverTheLog | src/kvcot/discovery/b2a_workers.py:828-857 | pass-1 events followed by pass-2 events are all the observed boundaries in order |
| CallTrace.TimeIsConserved | src/kvcot/discovery/b2a_workers.py:840-871 | the two totals add up to all returned calls' time, capture time is within Pass 2's, and Pass 2's total exceeds its own calls' time by exactly the snapshots taken in Pass 1 |
| CallTrace.SlicesAreThePasses | src/kvcot/discovery/b2a_evidence.py:418-429 | if each boundary makes one model call, the replay evidence slices are each pass's own calls |
| CanonicalJson.NumbersRead | src/kvcot/utils/hashing.py:30-36 | the canonical JSON text of a list of integers can be read back in one way only, whatever follows it |
| CanonicalJson.DigitsAreDecimal | src/kvcot/utils/hashing.py:30-36 | the digits of a number are its decimal numeral, without a leading zero |
| CallTrace.TraceTextInjective | src/kvcot/discovery/call_trace.py:116-122 | two traces with the same canonical JSON text are the same trace |
| CallTrace.TraceTextIs | src/kvcot/discovery/call_trace.py:116-122 | the text of a trace: a bracketed list of its events' texts, comma-separated |
| CallTrace.OrderedTraceDecides | src/kvcot/discovery/call_trace.py:116-152 | with a SHA-256 that does not collide on texts, the ordered trace matches iff the traces are equal, and then the other three match |
| CallTrace.CompareSays | src/kvcot/discovery/call_trace.py:141-152 | each of the other three comparisons holds exactly when the two traces have as many prefills, as many decodes, the same number of prefill tokens |
| CallTrace.CountsDoNotDecide | src/kvcot/discovery/call_trace.py:141-152 | the three counts alone do not imply a match |
| FixedTrace.MeanOverFractions | src/kvcot/analysis/fixed_trace.py:148-179 | the loop of PSS and CPSS: the mean mismatch if every fraction has a defined match, undefined otherwise |
| FixedTrace.BuildFixedTracePairs | src/kvcot/analysis/fixed_trace.py:487-593 | one pair per base record probed under both policies, in order; what each holds is PairReports |
| FixedTrace.EligibleIff | src/kvcot/analysis/fixed_trace.py:512-565 | which pairs are eligible: both anchors boxed and correct, all scored probes compared on both sides, R-KV compressed at the full trace and never while answering, a clean base record, and enough meaningful compression where required |
| FixedTrace.PairReports | src/kvcot/analysis/fixed_trace.py:511-593 | every field of a pair: PSS is the share of scored fractions that disagreed, the eligible deltas are FullKV's share minus R-KV's over all seven fractions and over the active ones, each present exactly when defined |
| FixedTrace.CurveEligibleOnlyAt | src/kvcot/analysis/fixed_trace.py:644-669 | a curve point is the match rate among the eligible ids with a defined match, undefined if there are none |
| FixedTrace.MatchRateCounts | src/kvcot/analysis/fixed_trace.py:644-669 | a match rate is the number of ids that agreed over the number of ids compared, undefined if there are none |
| FixedTrace.EligiblePairHasDelta | src/kvcot/analysis/fixed_trace.py:258-274 | eligibility implies both sides are fully defined and the delta is R-KV minus FullKV agreement averaged over the scored fractions |
| FixedTrace.CpssIsPssWhenAllActive | src/kvcot/analysis/fixed_trace.py:182-211 | where all seven scored fractions are active CPSS is PSS |
| FixedTrace.EligiblePairHasCpssIff | src/kvcot/analysis/fixed_trace.py:182-221 | an eligible pair has a CPSS delta iff enough fractions were active |
| FixedTrace.MeanMismatchIgnoresOrder | src/kvcot/analysis/fixed_trace.py:198-211 | CPSS does not depend on the order in which the active set is visited |
| FixedTrace.CurvePoint | src/kvcot/analysis/fixed_trace.py:644-669 | a curve point over comparable ids is the same mean in any file order |
| FixedTrace.MeanDeltaIsMeanOfRateDeltas | src/kvcot/analysis/fixed_trace.py:1054-1061 | with distinct base ids and an eligible pair, mean_delta_pss is the mean over the seven scored fractions of R-KV minus FullKV eligible-only match rate, and all those rates are defined |
| AccuracyGate.BuildAccuracyScreen | src/kvcot/analysis/fixed_trace.py:713-773 | the counting loop over the common keys computes the screen of the two keyed maps |
| AccuracyGate.ScreenCounts | src/kvcot/analysis/fixed_trace.py:713-773 | every count of the screen is that of a set of shared keys, told from the two maps; the difference is the R-KV correct share minus the FullKV one, absent without shared keys, and plausible iff it is no lower than minus the allowed drop |
| AccuracyGate.LastRowOfAKeyStays | src/kvcot/analysis/fixed_trace.py:730-734 | of a key repeated in a file the last row counts |
| AccuracyGate.ScreenRestsOnDiscordantPairs | src/kvcot/analysis/fixed_trace.py:738-757 | difference = (rkv_only - full_only)/n, and plausible iff n > 0 and full_only - rkv_only <= max_drop * n |
| AccuracyGate.BuildStrictAccuracyGate | src/kvcot/analysis/fixed_trace.py:821-915 | no reason iff both files have the expected count, all rows valid, distinct equal key sets, one identity, the right conditions, and a plausible screen |
| AccuracyGate.CoherentIff | src/kvcot/analysis/fixed_trace.py:870-897 | coherence in the gate's own terms: at most one identity together with the expected one, only "full" on the FullKV side, at most one condition on the other, the expected one if given |
| AccuracyGate.PassedGateIsTotal | src/kvcot/analysis/fixed_trace.py:821-915 | a passed gate has at least one pair and exactly expected_n of them, the common keys are all keys of both files, and the difference and the drop are over all of them |
| AccuracyGate.ScreenAloneCanMislead | src/kvcot/analysis/fixed_trace.py:733-757 | without the gate one common key out of two can look plausible |
| SelectionCompleteness.VerifySelectionCompleteness | src/kvcot/analysis/fixed_trace.py:1349-1388 | no problem iff both probe files hold exactly the selected ids with exactly the nine fractions and every id is a base record |
| SelectionCompleteness.CompleteSays | src/kvcot/analysis/fixed_trace.py:1349-1388 | completeness id by id and fraction by fraction |
| SelectionCompleteness.FiltersKeepTheSelected | src/kvcot/analysis/fixed_trace.py:1518-1539 | on any files the filters keep just the selected ids and base records, with their probes unchanged |
| SelectionCompleteness.FiltersChangeNothing | src/kvcot/analysis/fixed_trace.py:1517-1541 | after acceptance the filters that follow change nothing |
| SelectionCompleteness.OnePairPerSelectedId | src/kvcot/analysis/fixed_trace.py:510-515 | after acceptance, with distinct base ids, there is exactly one pair per selected id |
| Selection.WriteSelection | src/kvcot/cli.py:1930-2003 | rank all usable records by row, filter to predicted eligible, slice by the cap, mark: the file of that ranking, negative caps included |
| Selection.CandidatesAre | src/kvcot/cli.py:1930-1969 | the candidates are the correct, parsed records without a cap hit, in file order, with the predicted eligibility of each |
| Selection.PredictedIff | src/kvcot/cli.py:1946-1959 | a record is predicted eligible iff it has nine fractions, keeps at most the ceiling at the last and at enough scored ones |
| Selection.FileReports | src/kvcot/cli.py:1971-2003 | every header field and count of the written file, its candidates in row order, flagged exactly if listed |
| Selection.LoadSelection | src/kvcot/cli.py:827-965 | no mismatch iff the header agrees with the current configuration, base file and lock, the candidates are consistent, and each selected id has an eligible candidate with its row |
| Selection.RoundTripIff | src/kvcot/cli.py:827-965 | under the writer's own context, and for any integer cap, the loader accepts iff usable records have distinct ids and rows and the cap was not overridden away from the registered one |
| Selection.SelectionIsFirstEligible | src/kvcot/cli.py:1971-1981 | the selection is eligible, in row order, as long as the slice says, and no chosen candidate has a higher row than an eligible one left out |
| Selection.TakesFirstIff | src/kvcot/cli.py:1971-1981 | a ranking's selection is its first min(cap, eligible) eligible candidates iff the cap is absent, not negative, or leaves all of them out; every ranking's is iff the cap is absent or not negative; a negative cap leaves out that many |
| Selection.NegativeCapSelectsFromTheEnd | src/kvcot/cli.py:1971-1981 | with cap -1 and three eligible candidates two are selected, and the loader accepts the file where the configuration has no cap |
| Selection.AcceptedSelectionIsSound | src/kvcot/cli.py:879-958 | any accepted selection has this configuration's header and consistent counts, and distinct ids and rows, each id of exactly one candidate, eligible, flagged and with the listed row |
| Selection.LoaderKeepsCapIff | src/kvcot/cli.py:868-958 | every accepted file with a given cap selects at most that many ids iff the configuration registers another cap, or the base file exists and has no more ids than the cap |
| Selection.OverfullSelectionAccepted | src/kvcot/cli.py:868-958 | a file with cap 2 and five selected ids that the loader accepts |
| Sorting.SortBySorts | src/kvcot/discovery/b2a_r2_candidates.py:168-169 | sorting orders the members by key and loses none |
| Sorting.SortIgnoresInputOrder | src/kvcot/discovery/b2a_r2_candidates.py:168-169 | with an identifying key the result does not depend on the input order |
| Sorting.SortIsStable | src/kvcot/discovery/b2a_r2_candidates.py:168-169 | members of equal key keep their order |
| RowSelection.BuildCandidateManifest | src/kvcot/discovery/b2a_r2_candidates.py:141-190 | accepts iff every row has the expected columns and no wanted id repeats, and reports a row or id for which that fails; otherwise the manifest of CandidatesOf, characterised by CandidatesAre |
| RowSelection.UsableIff | src/kvcot/discovery/b2a_r2_candidates.py:141-155 | accepted files row by row: all columns as expected, and no two wanted rows of one id |
| RowSelection.CandidatesAre | src/kvcot/discovery/b2a_r2_candidates.py:157-190 | the candidates are the smaller of twelve and all wanted rows, distinct, in hash order, numbered from zero, each the row of the file at its place, and no wanted row left out has a smaller hash than one of them |
| RowSelection.FileOrderIsImmaterial | src/kvcot/discovery/b2a_r2_candidates.py:141-169 | two orderings of the same rows are both refused or give the same candidate rows in the same order |
| RowSelection.CandidateRows | src/kvcot/discovery/b2a_r2_candidates.py:165-190 | the candidates carry exactly the wanted rows, sorted by hash, the first twelve |
| RowSelection.QualifiedHasThreeEvents | src/kvcot/discovery/b2a_qualification.py:113-146 | a qualified candidate's schedule has at least three events by the closed-form count |
| RowSelection.QualifiesIff | src/kvcot/discovery/b2a_qualification.py:113-146 | all ten conditions of the measured run, with the scheduled events counted in closed form |
| RowSelection.ValidateManifest | src/kvcot/discovery/b2a_qualification.py:390-419 | no refusal iff identity agrees, at most twelve candidates, distinct ordinals; each refusal exactly when it is the first to apply, and the duplicate it names is one |
| RowSelection.RunQualification | src/kvcot/discovery/b2a_qualification.py:324-387 | candidates are attempted in order, all but possibly the last unqualified, and the selection is what select_first_qualified finds; it errs iff the manifest is invalid or a candidate of unknown answer status comes before every qualifying one, names the first such candidate, and never attempts one otherwise |
| RowSelection.StopsAtFirst | src/kvcot/discovery/b2a_qualification.py:216-223 | when only the last attempt can qualify it is the first qualified one |
| RowSelection.FirstQualifiedIs | src/kvcot/discovery/b2a_qualification.py:216-223 | select_first_qualified returns the attempt before which none qualified |
| RowSelection.FreezeFindsFirstQualified | src/kvcot/discovery/b2a_r2_freeze.py:73-162 | on a run's own artifact the freeze succeeds iff some candidate qualifies and returns the first that does |
| RowSelection.FreezesIff | src/kvcot/discovery/b2a_r2_freeze.py:73-162 | on any artifact, the freeze succeeds iff it is the manifest's and the configuration's, and its selection names exactly one attempt, qualified in every condition, and exactly one candidate, both of that id; that candidate is returned |
| RowSelection.FreezesHashLeastQualified | src/kvcot/discovery/b2a_r2_freeze.py:129-162 | from file to frozen row: the row frozen is a wanted row of the file at its place, qualifies, and every wanted row of smaller hash was a candidate that does not; there is one iff one of the twelve candidates qualifies |
| BranchEval.EvaluateBranch | src/kvcot/discovery/branch_eval.py:106-139 | errs iff the horizon is not 48; otherwise NLL k is that of target k under the logits after the bridge and the targets before it, and exactly the bridge and the first 47 targets are fed |
| BranchEval.ScoresFollowTheRun | src/kvcot/discovery/branch_eval.py:106-139 | told as a run of the model: feed the bridge, then each target but the last to the cache so far; score k is of target k under the logits that step returned |
| BranchEval.EvaluateBranchCompact | src/kvcot/discovery/branch_eval.py:75-103 | the same scores, mean and hash with nothing retained, feeding the same tokens |
| BranchEval.CompactRefinesFull | src/kvcot/discovery/branch_eval.py:61-103 | the compact evaluator equals compact_branch_score of the full one, errors included |
| BranchEval.EvaluateSwapBranches | src/kvcot/discovery/branch_eval.py:155-178 | both branches' scores; the gain is baseline minus swapped mean NLL, zero for the unswapped control and whenever the two caches answer alike to every beginning of what is fed |
| BranchEval.GrowthIsExact | src/kvcot/discovery/execution_measurement.py:186-198 | per-token growth is exact for single-batch caches: the grown cache's bytes are the snapshot's plus tokens times growth |
| BranchEval.GrowthRightIff | src/kvcot/discovery/execution_measurement.py:186-198 | the per-token growth is never too large, and right iff every tensor is single-batch or empty |
| BranchEval.CheckPreBranchMemory | src/kvcot/discovery/execution_measurement.py:244-329 | refuses negative arguments and layerless snapshots; otherwise the reserve is one more horizon of growth, and it accepts iff what is live leaves the reserve free at every token up to the whole horizon |
| BranchEval.OneLayerLive | src/kvcot/discovery/execution_measurement.py:244-329 | what the projection counts, byte by byte, for a snapshot of one layer |
| BranchEval.AcceptedBoundsAppendsIff | src/kvcot/discovery/execution_measurement.py:244-329 | acceptance bounds every append of every layer side in turn, the old tensor held during the copy included, for every limit, iff the last copy of each side fits in the reserve and the growth still to come |
| BranchEval.AlikeSidesCoveredIff | src/kvcot/discovery/execution_measurement.py:244-329 | with all layer sides alike, over the whole horizon, that is iff the cache one token short of its end is no longer than the horizon times the number of sides |
| BranchEval.ReserveCanBeTooSmall | src/kvcot/discovery/execution_measurement.py:244-329 | a snapshot of 28 layers and 3000 positions for which an accepted guard does not bound its appends |
| BranchEval.AdmittedBranchFits | src/kvcot/discovery/execution_measurement.py:282-306 | an admitted branch leaves the reserve free at every token the evaluators feed, and stays within the limit during every append when the copies fit |

## Left out

- Model loading, tokenizers, CUDA, attention and the scoring arithmetic of `update_kv`: foreign code. Top-k is any choice of budget minus window distinct in-range indices.
- Subprocess launching, environment variables, git and provenance collection, JSON and YAML parsing, network fetches: their outcomes are parameters of the model.
- Paths, stages and audit fields are datatypes; strings the tables do not list are one constructor each, so a journal whose stage or timing phase is an unhashable JSON value, which raises TypeError, is not modelled.
- Crashes of the process between two writes, and temporary files that a write could not remove: a run is a sequence of writes that each take effect or not, and raise or not.
- AttemptLifecycle.Attempt.Execute: the command's dry run, and the attempt-less variant that writes a standalone artifact, are not part of the model.
- AttemptLifecycle.Attempt.RunCalibration: worker processes write at two moments, before completion and between the manifest and its verification, and never one of the command's own paths.
- Selection.LoadSelection: list entries are assumed to carry the fields they name; a candidate without its id raises KeyError in the code.
- FixedTrace.CurveEligibleOnlyAt: one fraction at a time; the all-shared curves, the retention summary and the sign counts of the decision are easier instances of the same loops.
- AccuracyGate.BuildAccuracyScreen: the sorted list of common keys is an argument; which order it is in does not matter to any count.
- PeakMemory.CudaMemoryMeasurer.Measure: reserved bytes follow the same code on a second counter and are not repeated.
- Timer.SynchronizedTimer.Measure: non-finite clock readings, which the code also refuses, do not exist over the reals.
- RowSelection.RunQualification: which predicted events have enough future tokens is an argument, since the Pass 1 module that decides it is not part of this model.
- BranchEval.CheckPreBranchMemory: what an allocator holds beyond the tensors themselves, such as fragmentation, is not modelled; during an append one old layer side is live beside the new one.
- Timer.StartupAndLoadSeconds: what a worker measures after its setup is any list of calls without double counting; `Timer.FullKVWorkerFits` and `Timer.RkvWorkerFits` discharge that for the two workers, the latter by the phase names the orchestrator uses, in any order and number.
- `build_runtime_projection`, `derive_pair_identity_evidence` and `derive_failed_pair_identities`: arithmetic and filtering easier than what is covered.
- `verify_attempt_artifacts` beyond the journal and the final manifest, and the worker command-identity check: conjunctions of field comparisons.
- `stats.py`, `plots.py`, `metrics.py`, `pipeline.py`, `attrition.py`, `failure_atlas.py`, `summaries.py`, `capture_minimize.py`, `compact_target.py` and `b2a_contract.py`: numerics, figures and easier counting.

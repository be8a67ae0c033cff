/** The trace-length preflight (`cmd_inspect_fixed_trace` in src/kvcot/cli.py) against the
    screen it is meant to anticipate: when may a STOP be trusted? */
module Preflight {
  import opened Prelude
  import opened ScreenValidity
  import Schedule = RkvSchedule

  /** A base record whose think span parsed: prompt length and the span's bounds in the
      generated tokens. */
  datatype Trace = Trace(prompt: nat, thinkStart: nat, thinkEnd: int) {
    function SpanLength(): nat { Max(0, thinkEnd - thinkStart) }

    /** What the preflight measures: prompt plus think span. */
    function InspectedLength(): nat { prompt + SpanLength() }

    /** Where the f=1 snapshot is really taken. */
    function FullCut(): nat { prompt + thinkStart + SpanLength() }
  }

  datatype Record = Unparsed | Parsed(trace: Trace)

  datatype Verdict = Proceed | NoTraceLongerThanBudget | RateUnreachable | RetentionUnreachable

  // ---------------------------------------------------------------- the preflight

  function ParsedTraces(records: seq<Record>): seq<Trace> {
    if records == [] then []
    else
      var last := records[|records| - 1];
      ParsedTraces(records[..|records| - 1]) + (if last.Parsed? then [last.trace] else [])
  }

  function Longer(budget: nat): Trace -> bool {
    (t: Trace) => t.InspectedLength() > budget
  }

  /** Best case: the cache compacted all the way down to the budget. */
  function OptimisticRetention(budget: nat): Trace -> real {
    (t: Trace) => if t.InspectedLength() > budget then budget as real / t.InspectedLength() as real else 1.0
  }

  function FractionLonger(traces: seq<Trace>, budget: nat): real
    requires traces != []
  {
    Count(traces, Longer(budget)) as real / |traces| as real
  }

  function MeanOptimisticRetention(traces: seq<Trace>, budget: nat): real
    requires traces != []
  {
    SumOf(traces, OptimisticRetention(budget)) / |traces| as real
  }

  /** The checks in the order the command makes them. */
  function VerdictOf(traces: seq<Trace>, budget: Option<nat>, settings: Option<Settings>): Verdict {
    if budget.None? || traces == [] then Proceed
    else if Count(traces, Longer(budget.value)) == 0 then NoTraceLongerThanBudget
    else if settings.None? then Proceed
    else if FractionLonger(traces, budget.value) < settings.value.minActualCompressionRate then RateUnreachable
    else if MeanOptimisticRetention(traces, budget.value) > settings.value.maxMeanF1RetentionRatio then RetentionUnreachable
    else Proceed
  }

  method InspectFixedTrace(records: seq<Record>, budget: Option<nat>, settings: Option<Settings>)
    returns (verdict: Verdict)
    ensures verdict == VerdictOf(ParsedTraces(records), budget, settings)
  {
    var traces: seq<Trace> := [];
    var longer, optimistic := 0, 0.0;
    for i := 0 to |records|
      invariant traces == ParsedTraces(records[..i])
      invariant budget.Some? ==> longer == Count(traces, Longer(budget.value))
      invariant budget.Some? ==> optimistic == SumOf(traces, OptimisticRetention(budget.value))
    {
      assert records[..i + 1][..i] == records[..i];
      if records[i].Parsed? {
        var trace := records[i].trace;
        if budget.Some? {
          CountSnoc(traces, trace, Longer(budget.value));
          SumOfSnoc(traces, trace, OptimisticRetention(budget.value));
          longer := longer + (if trace.InspectedLength() > budget.value then 1 else 0);
          optimistic := optimistic + OptimisticRetention(budget.value)(trace);
        }
        traces := traces + [trace];
      }
    }
    assert records[..|records|] == records;
    if budget.None? || traces == [] { return Proceed; }
    if longer == 0 { return NoTraceLongerThanBudget; }
    if settings.None? { return Proceed; }
    if longer as real / |traces| as real < settings.value.minActualCompressionRate { return RateUnreachable; }
    if optimistic / |traces| as real > settings.value.maxMeanF1RetentionRatio { return RetentionUnreachable; }
    return Proceed;
  }

  /** Only records with a parsed span are inspected, in file order. */
  lemma ParsedTracesAre(before: seq<Record>, record: Record)
    ensures ParsedTraces(before + [record]) == if record.Parsed? then ParsedTraces(before) + [record.trace] else ParsedTraces(before)
    ensures ParsedTraces([]) == []
  {
    assert (before + [record])[..|before|] == before;
  }

  /** The trace at this place has more prompt and thinking tokens than the budget. */
  predicate LongAt(traces: seq<Trace>, i: int, budget: nat) {
    0 <= i < |traces| && traces[i].prompt + Max(0, traces[i].thinkEnd - traces[i].thinkStart) > budget
  }

  /** Which STOP is printed, told trace by trace: none is longer than the budget; or too few are;
      or enough are and the best-case mean retention is still too high. */
  lemma VerdictSays(traces: seq<Trace>, budget: nat, settings: Settings, longer: set<int>)
    requires traces != []
    requires forall i :: i in longer <==> LongAt(traces, i, budget)
    ensures var verdict, share := VerdictOf(traces, Some(budget), Some(settings)), |longer| as real / |traces| as real;
            && (verdict == NoTraceLongerThanBudget <==> longer == {})
            && (verdict == RateUnreachable <==> longer != {} && share < settings.minActualCompressionRate)
            && (verdict == RetentionUnreachable <==>
                 && longer != {} && share >= settings.minActualCompressionRate
                 && MeanOptimisticRetention(traces, budget) > settings.maxMeanF1RetentionRatio)
    ensures VerdictOf(traces, None, Some(settings)) == Proceed
    ensures VerdictOf(traces, Some(budget), None) == if longer == {} then NoTraceLongerThanBudget else Proceed
    ensures VerdictOf([], Some(budget), Some(settings)) == Proceed
  {
    forall i
      ensures i in longer <==> HoldsAt(traces, Longer(budget), i)
    {
      assert i in longer <==> LongAt(traces, i, budget);
    }
    CountPlaces(traces, Longer(budget), longer);
    hide Count, MeanOptimisticRetention;
  }

  // ---------------------------------------------------------------- what the run measures

  /** `actual_compression_at_cut` at f=1 of a run whose cache follows the schedule. */
  function Compressed(budget: nat, divide: nat): Trace -> bool
    requires divide >= 1
  {
    (t: Trace) => Schedule.LengthAt(t.prompt, t.FullCut(), budget, divide) < t.FullCut()
  }

  /** `rkv_f1_retention_ratio` of the same run. */
  function Retention(budget: nat, divide: nat): Trace -> real
    requires divide >= 1
  {
    (t: Trace) => Schedule.RetentionRatio(Schedule.LengthAt(t.prompt, t.FullCut(), budget, divide), t.FullCut())
  }

  function Meaningful(budget: nat, divide: nat, ceiling: real): Trace -> bool
    requires divide >= 1
  {
    (t: Trace) => Retention(budget, divide)(t) <= ceiling
  }

  function ActualRate(traces: seq<Trace>, budget: nat, divide: nat): real
    requires divide >= 1 && traces != []
  {
    Count(traces, Compressed(budget, divide)) as real / |traces| as real
  }

  function MeaningfulRate(traces: seq<Trace>, budget: nat, divide: nat, ceiling: real): real
    requires divide >= 1 && traces != []
  {
    Count(traces, Meaningful(budget, divide, ceiling)) as real / |traces| as real
  }

  function MeanRetention(traces: seq<Trace>, budget: nat, divide: nat): real
    requires divide >= 1 && traces != []
  {
    SumOf(traces, Retention(budget, divide)) / |traces| as real
  }

  /** The screen's reasons when every trace was replayed: the pairs are the traces. An
      eligible pair is compressed at f=1, so there are no more eligible pairs than compressed ones. */
  ghost predicate ScreenCanBeValid(traces: seq<Trace>, budget: nat, divide: nat, settings: Settings)
    requires divide >= 1 && traces != []
  {
    exists nEligible: nat, plausible, gatePassed ::
      && nEligible <= Count(traces, Compressed(budget, divide))
      && InvalidReasons(nEligible, Some(ActualRate(traces, budget, divide)), Some(MeanRetention(traces, budget, divide)),
                        settings, plausible,
                        Some(MeaningfulRate(traces, budget, divide, settings.meaningfulRetentionCeiling)), gatePassed) == []
  }

  /** The screen's compression-rate gate fails on this run. */
  predicate RateGateFails(traces: seq<Trace>, budget: nat, divide: nat, settings: Settings)
    requires divide >= 1 && traces != []
  {
    if settings.requireMeaningfulCompression
    then MeaningfulRate(traces, budget, divide, settings.meaningfulRetentionCeiling) < settings.minMeaningfulCompressionRate
    else ActualRate(traces, budget, divide) < settings.minActualCompressionRate
  }

  /** What that takes of the run itself. */
  lemma CanBeValidIff(traces: seq<Trace>, budget: nat, divide: nat, settings: Settings)
    requires divide >= 1 && traces != []
    ensures ScreenCanBeValid(traces, budget, divide, settings) <==>
              && Count(traces, Compressed(budget, divide)) >= settings.minEligibleExamples
              && !RateGateFails(traces, budget, divide, settings)
              && MeanRetention(traces, budget, divide) <= settings.maxMeanF1RetentionRatio
  {
    hide Count, ActualRate, MeanRetention, MeaningfulRate, InvalidReasons;
    var rate, mean := Some(ActualRate(traces, budget, divide)), Some(MeanRetention(traces, budget, divide));
    var meaningful := Some(MeaningfulRate(traces, budget, divide, settings.meaningfulRetentionCeiling));
    forall nEligible: nat, plausible, gatePassed
      ensures InvalidReasons(nEligible, rate, mean, settings, plausible, meaningful, gatePassed) == [] <==>
                && nEligible >= settings.minEligibleExamples && !RateGateFails(traces, budget, divide, settings)
                && mean.value <= settings.maxMeanF1RetentionRatio
                && plausible != Some(false) && gatePassed != Some(false)
    {
      ScreenValidIff(nEligible, rate, mean, settings, plausible, meaningful, gatePassed);
    }
    var n := Count(traces, Compressed(budget, divide));
    var flag: Option<bool> := None;
    assert n >= settings.minEligibleExamples && !RateGateFails(traces, budget, divide, settings)
           && mean.value <= settings.maxMeanF1RetentionRatio ==>
             InvalidReasons(n, rate, mean, settings, flag, meaningful, flag) == [];
  }

  // ---------------------------------------------------------------- one trace

  /** The preflight's two promises for one trace: only a trace longer than the budget can be
      compressed, and its retention is at least the optimistic one. */
  ghost predicate PromisesHold(trace: Trace, budget: nat, divide: nat)
    requires divide >= 1
  {
    && (Compressed(budget, divide)(trace) ==> trace.InspectedLength() > budget)
    && OptimisticRetention(budget)(trace) <= Retention(budget, divide)(trace)
  }

  /** No compression is attempted in the `thinkStart` positions the preflight does not count.
      Always true of a span that opens the generation. */
  predicate NoAttemptPastInspection(trace: Trace, divide: nat)
    requires divide >= 1
  {
    Schedule.LastAttempt(trace.prompt, trace.FullCut(), divide) <= trace.InspectedLength()
  }

  lemma SpanAtGenerationStart(trace: Trace, divide: nat)
    requires divide >= 1 && trace.thinkStart == 0
    ensures NoAttemptPastInspection(trace, divide)
  {
    Schedule.LastAttemptIsLatest(trace.prompt, trace.FullCut(), divide);
  }

  /** The promises hold at every budget exactly when no attempt falls past the inspected
      length: the preflight ignores the tokens before the think span, the snapshot does not. */
  lemma PromisesHoldIff(trace: Trace, divide: nat)
    requires divide >= 1 && trace.prompt >= 1
    ensures (forall budget: nat :: budget >= 1 ==> PromisesHold(trace, budget, divide))
            <==> NoAttemptPastInspection(trace, divide)
  {
    if NoAttemptPastInspection(trace, divide) {
      forall budget: nat | budget >= 1
        ensures PromisesHold(trace, budget, divide)
      {
        PromisesKept(trace, budget, divide);
      }
    } else {
      var budget := trace.InspectedLength();
      Schedule.LastAttemptIsLatest(trace.prompt, trace.FullCut(), divide);
      assert Compressed(budget, divide)(trace);
      assert !PromisesHold(trace, budget, divide);
    }
  }

  lemma PromisesKept(trace: Trace, budget: nat, divide: nat)
    requires divide >= 1 && trace.prompt >= 1 && budget >= 1 && NoAttemptPastInspection(trace, divide)
    ensures PromisesHold(trace, budget, divide)
  {
    KeptLength(trace, budget, divide);
    RetentionPromise(trace.InspectedLength(), trace.FullCut(), budget,
                     Schedule.LengthAt(trace.prompt, trace.FullCut(), budget, divide));
  }

  lemma KeptLength(trace: Trace, budget: nat, divide: nat)
    requires divide >= 1 && NoAttemptPastInspection(trace, divide)
    ensures var kept := Schedule.LengthAt(trace.prompt, trace.FullCut(), budget, divide);
            if trace.InspectedLength() > budget then kept >= trace.FullCut() - trace.InspectedLength() + budget
            else kept == trace.FullCut()
  {
  }

  lemma RetentionPromise(inspected: nat, cut: nat, budget: nat, kept: int)
    requires 1 <= budget && 1 <= inspected <= cut
    requires if inspected > budget then kept >= cut - inspected + budget else kept == cut
    ensures (if inspected > budget then budget as real / inspected as real else 1.0) <= Schedule.RetentionRatio(kept, cut)
  {
    if inspected > budget {
      KeptRatio(budget, inspected, cut - inspected, kept);
    } else {
      assert cut as real / cut as real == 1.0;
    }
  }

  /** Adding the same slots to both sides of a ratio below one does not lower it. */
  lemma KeptRatio(budget: nat, inspected: nat, skipped: nat, kept: int)
    requires 0 < budget < inspected && kept >= skipped + budget
    ensures budget as real / inspected as real <= kept as real / (inspected + skipped) as real
  {
    var b, i, s, k := budget as real, inspected as real, skipped as real, kept as real;
    Products(k - s - b, i);
    Products(i - b, s);
    assert k * i - b * (i + s) == (k - s - b) * i + (i - b) * s;
    CrossMultiply(b, i, k, i + s);
  }

  // ---------------------------------------------------------------- the population

  /** Over a population: the longer-than-budget fraction bounds the actual compression rate
      from above, the optimistic mean bounds the mean retention from below. */
  lemma PopulationBounds(traces: seq<Trace>, budget: nat, divide: nat)
    requires divide >= 1 && budget >= 1 && traces != []
    requires forall t :: t in traces ==> t.prompt >= 1 && NoAttemptPastInspection(t, divide)
    ensures Count(traces, Compressed(budget, divide)) <= Count(traces, Longer(budget))
    ensures ActualRate(traces, budget, divide) <= FractionLonger(traces, budget)
    ensures MeanOptimisticRetention(traces, budget) <= MeanRetention(traces, budget, divide)
    ensures forall ceiling :: ceiling < 1.0 ==>
              MeaningfulRate(traces, budget, divide, ceiling) <= ActualRate(traces, budget, divide)
  {
    var n := |traces| as real;
    forall i | 0 <= i < |traces|
      ensures PromisesHold(traces[i], budget, divide)
    {
      PromisesKept(traces[i], budget, divide);
    }
    CountMonotone(traces, Compressed(budget, divide), Longer(budget));
    DivideMonotone(Count(traces, Compressed(budget, divide)) as real, Count(traces, Longer(budget)) as real, n);
    SumOfMonotone(traces, OptimisticRetention(budget), Retention(budget, divide));
    DivideMonotone(SumOf(traces, OptimisticRetention(budget)), SumOf(traces, Retention(budget, divide)), n);
    forall ceiling | ceiling < 1.0
      ensures MeaningfulRate(traces, budget, divide, ceiling) <= ActualRate(traces, budget, divide)
    {
      forall i | 0 <= i < |traces| && Meaningful(budget, divide, ceiling)(traces[i])
        ensures Compressed(budget, divide)(traces[i])
      {
        Schedule.RetentionInUnitInterval(traces[i].prompt, traces[i].FullCut(), budget, divide);
      }
      CountMonotone(traces, Meaningful(budget, divide, ceiling), Compressed(budget, divide));
      DivideMonotone(Count(traces, Meaningful(budget, divide, ceiling)) as real,
                     Count(traces, Compressed(budget, divide)) as real, n);
    }
  }

  /** When the screen's own rate gate is at least as demanding as the preflight's: it is the
      same gate, or its threshold is no lower and full retention does not clear its ceiling. */
  predicate RateThresholdsAgree(settings: Settings) {
    || !settings.requireMeaningfulCompression
    || settings.minActualCompressionRate == 0.0
    || (settings.meaningfulRetentionCeiling < 1.0
        && settings.minActualCompressionRate <= settings.minMeaningfulCompressionRate)
  }

  /** When a rate STOP is conclusive all the same: its rate is too low for the retention ceiling. */
  predicate RateStopConclusive(settings: Settings) {
    RateThresholdsAgree(settings) || settings.minActualCompressionRate + settings.maxMeanF1RetentionRatio <= 1.0
  }

  /** A STOP is sound: a run over the same traces cannot yield a valid screen. A rate STOP
      needs conclusive settings; `StopsRuleOutIff` shows that nothing less will do. */
  lemma StopIsSound(traces: seq<Trace>, budget: nat, divide: nat, settings: Settings)
    requires divide >= 1 && budget >= 1 && traces != [] && settings.Valid()
    requires forall t :: t in traces ==> t.prompt >= 1 && NoAttemptPastInspection(t, divide)
    requires var verdict := VerdictOf(traces, Some(budget), Some(settings));
             verdict != Proceed && (verdict == RateUnreachable ==> RateStopConclusive(settings))
    ensures !ScreenCanBeValid(traces, budget, divide, settings)
  {
    PopulationBounds(traces, budget, divide);
    RetentionFloor(traces, budget);
    CanBeValidIff(traces, budget, divide, settings);
    hide ScreenCanBeValid, Longer, Compressed, Meaningful, SumOf, MeanRetention, MeanOptimisticRetention;
  }

  /** The traces no longer than the budget keep everything, so the two statistics add up to one. */
  lemma RetentionFloor(traces: seq<Trace>, budget: nat)
    requires traces != [] && budget >= 1
    ensures FractionLonger(traces, budget) + MeanOptimisticRetention(traces, budget) >= 1.0
  {
    OptimisticSum(traces, budget);
    SharesAddUp(Count(traces, Longer(budget)) as real, SumOf(traces, OptimisticRetention(budget)), |traces| as real);
  }

  lemma SharesAddUp(a: real, b: real, n: real)
    requires n > 0.0 && a + b >= n
    ensures a / n + b / n >= 1.0
  {
    var p, q := a / n, b / n;
    assert (p + q - 1.0) * n == p * n + q * n - n;
    NonnegativeFactor(p + q - 1.0, n);
  }

  lemma {:induction false} OptimisticSum(traces: seq<Trace>, budget: nat)
    requires budget >= 1
    ensures SumOf(traces, OptimisticRetention(budget)) >= |traces| as real - Count(traces, Longer(budget)) as real
  {
    if traces != [] {
      var rest, last := traces[..|traces| - 1], traces[|traces| - 1];
      OptimisticSum(rest, budget);
      assert OptimisticRetention(budget)(last) >= if Longer(budget)(last) then 0.0 else 1.0;
    }
  }

  /** The settings of the screen at their most lenient. */
  function Lenient(): Settings { Settings(1, 0.7, 1.0, 0.7, false, 0, 0.7, 0.1, None, 2) }

  /** No STOP on this trace alone is ever wrong. */
  ghost predicate EveryStopSound(trace: Trace, divide: nat)
    requires divide >= 1
  {
    forall budget: nat, settings: Settings ::
      budget >= 1 && settings.Valid() && VerdictOf([trace], Some(budget), Some(settings)) != Proceed
      ==> !ScreenCanBeValid([trace], budget, divide, settings)
  }

  /** Every STOP on a trace, at every budget and under every valid settings, rules the valid
      screen out, exactly when no attempt falls past the inspected length. A single trace is
      never stopped for its rate, which is one if it is longer than the budget. */
  lemma EveryStopSoundIff(trace: Trace, divide: nat)
    requires divide >= 1 && trace.prompt >= 1
    ensures EveryStopSound(trace, divide) <==> NoAttemptPastInspection(trace, divide)
  {
    if NoAttemptPastInspection(trace, divide) {
      forall budget: nat, settings: Settings
        | budget >= 1 && settings.Valid() && VerdictOf([trace], Some(budget), Some(settings)) != Proceed
        ensures !ScreenCanBeValid([trace], budget, divide, settings)
      {
        OneTrace(trace, budget, divide);
        StopIsSound([trace], budget, divide, settings);
      }
    } else {
      WrongStop(trace, divide);
      assert VerdictOf([trace], Some(trace.InspectedLength()), Some(Lenient())) != Proceed;
    }
  }

  /** Otherwise the STOP at a budget of the inspected length is wrong: nothing inspected is
      longer, yet the run compresses the trace and its screen can be valid. */
  lemma WrongStop(trace: Trace, divide: nat)
    requires divide >= 1 && trace.prompt >= 1 && !NoAttemptPastInspection(trace, divide)
    ensures Lenient().Valid() && VerdictOf([trace], Some(trace.InspectedLength()), Some(Lenient())) == NoTraceLongerThanBudget
    ensures ScreenCanBeValid([trace], trace.InspectedLength(), divide, Lenient())
  {
    var budget := trace.InspectedLength();
    Schedule.LastAttemptIsLatest(trace.prompt, trace.FullCut(), divide);
    assert Compressed(budget, divide)(trace);
    OneTrace(trace, budget, divide);
    Schedule.RetentionInUnitInterval(trace.prompt, trace.FullCut(), budget, divide);
    OneCompressedTraceCanBeValid(trace, budget, divide, Lenient());
  }

  // ---------------------------------------------------------------- and nothing less than a STOP

  /** The trace's f=1 cut is right at the end of its prompt, where every run compacts. */
  predicate EndsAtPrompt(t: Trace) { t.prompt >= 1 && t.thinkStart == 0 && t.thinkEnd <= 0 }

  /** The preflight asks for nothing it could not have: on traces whose cut falls on a compaction, the
      screen of the run can be valid exactly when the command proceeds and enough traces are longer
      than the budget. */
  lemma ProceedingIsTight(traces: seq<Trace>, budget: nat, divide: nat, settings: Settings)
    requires divide >= 1 && budget >= 1 && traces != [] && settings.Valid() && !settings.requireMeaningfulCompression
    requires forall i :: 0 <= i < |traces| ==> EndsAtPrompt(traces[i])
    ensures ScreenCanBeValid(traces, budget, divide, settings) <==>
              && VerdictOf(traces, Some(budget), Some(settings)) == Proceed
              && Count(traces, Longer(budget)) >= settings.minEligibleExamples
  {
    TightStatistics(traces, budget, divide);
    CanBeValidIff(traces, budget, divide, settings);
    hide ScreenCanBeValid, Longer, Compressed, Retention, OptimisticRetention, Count, SumOf;
  }

  lemma TightStatistics(traces: seq<Trace>, budget: nat, divide: nat)
    requires divide >= 1 && budget >= 1 && forall i :: 0 <= i < |traces| ==> EndsAtPrompt(traces[i])
    ensures Count(traces, Compressed(budget, divide)) == Count(traces, Longer(budget))
    ensures SumOf(traces, Retention(budget, divide)) == SumOf(traces, OptimisticRetention(budget))
  {
    hide Longer, Compressed, Retention, OptimisticRetention, Count, SumOf, EndsAtPrompt;
    forall i | 0 <= i < |traces|
      ensures Compressed(budget, divide)(traces[i]) <==> Longer(budget)(traces[i])
      ensures Retention(budget, divide)(traces[i]) == OptimisticRetention(budget)(traces[i])
    {
      CutAtPromptEnd(traces[i], budget, divide);
    }
    CountMonotone(traces, Compressed(budget, divide), Longer(budget));
    CountMonotone(traces, Longer(budget), Compressed(budget, divide));
    SumOfMonotone(traces, Retention(budget, divide), OptimisticRetention(budget));
    SumOfMonotone(traces, OptimisticRetention(budget), Retention(budget, divide));
  }

  lemma CutAtPromptEnd(t: Trace, budget: nat, divide: nat)
    requires divide >= 1 && budget >= 1 && EndsAtPrompt(t)
    ensures Compressed(budget, divide)(t) <==> Longer(budget)(t)
    ensures Retention(budget, divide)(t) == OptimisticRetention(budget)(t)
  {
    Schedule.EvictionAtPrefill(t.prompt, budget, divide);
    assert t.FullCut() == t.prompt == t.InspectedLength();
    SelfRatio(t.prompt as real);
  }

  // ---------------------------------------------------------------- when a rate STOP is sound

  ghost predicate RateStopSound(settings: Settings) {
    forall traces: seq<Trace>, budget: nat, divide: nat ::
      && divide >= 1 && budget >= 1 && traces != []
      && (forall t :: t in traces ==> t.prompt >= 1 && NoAttemptPastInspection(t, divide))
      && VerdictOf(traces, Some(budget), Some(settings)) == RateUnreachable
      ==> RateGateFails(traces, budget, divide, settings)
  }

  /** A rate STOP implies a failed rate gate on every population exactly when the thresholds agree. */
  lemma RateStopSoundIff(settings: Settings)
    requires settings.Valid()
    ensures RateStopSound(settings) <==> RateThresholdsAgree(settings)
  {
    if RateThresholdsAgree(settings) {
      forall traces: seq<Trace>, budget: nat, divide: nat |
        && divide >= 1 && budget >= 1 && traces != []
        && (forall t :: t in traces ==> t.prompt >= 1 && NoAttemptPastInspection(t, divide))
        && VerdictOf(traces, Some(budget), Some(settings)) == RateUnreachable
        ensures RateGateFails(traces, budget, divide, settings)
      {
        PopulationBounds(traces, budget, divide);
      }
    } else {
      var traces := UnsoundRateStop(settings, 1, 1);
    }
  }

  /** Under these settings the command never stops on traces whose screen could be valid. */
  ghost predicate StopsRuleOut(settings: Settings) {
    forall traces: seq<Trace>, budget: nat, divide: nat ::
      && divide >= 1 && budget >= 1 && traces != []
      && (forall t :: t in traces ==> t.prompt >= 1 && NoAttemptPastInspection(t, divide))
      && VerdictOf(traces, Some(budget), Some(settings)) != Proceed
      ==> !ScreenCanBeValid(traces, budget, divide, settings)
  }

  /** Every STOP, on every population without attempts past the inspected lengths, rules the
      valid screen out exactly when the settings make rate STOPs conclusive. */
  lemma StopsRuleOutIff(settings: Settings)
    requires settings.Valid()
    ensures StopsRuleOut(settings) <==> RateStopConclusive(settings)
  {
    if RateStopConclusive(settings) {
      forall traces: seq<Trace>, budget: nat, divide: nat |
        && divide >= 1 && budget >= 1 && traces != []
        && (forall t :: t in traces ==> t.prompt >= 1 && NoAttemptPastInspection(t, divide))
        && VerdictOf(traces, Some(budget), Some(settings)) != Proceed
        ensures !ScreenCanBeValid(traces, budget, divide, settings)
      {
        StopIsSound(traces, budget, divide, settings);
      }
    } else {
      var traces := WrongRateStop(settings, 1, 1);
    }
  }

  /** A population the command stops for its rate although its screen can be valid: the long
      traces are a share of it between what the screen needs and what the preflight asks for,
      so long that the mean retention clears its ceiling, and as many as must be eligible. */
  lemma WrongRateStop(settings: Settings, budget: nat, divide: nat) returns (traces: seq<Trace>)
    requires settings.Valid() && budget == 1 && divide >= 1
    requires !RateStopConclusive(settings)
    ensures traces != []
    ensures forall t :: t in traces ==> t.prompt >= 1 && t.thinkStart == 0 && NoAttemptPastInspection(t, divide)
    ensures VerdictOf(traces, Some(budget), Some(settings)) == RateUnreachable
    ensures ScreenCanBeValid(traces, budget, divide, settings)
  {
    hide ScreenCanBeValid, VerdictOf, RateGateFails, NoAttemptPastInspection, Mixed, Count, FractionLonger, MeanRetention;
    var ceiling, most := settings.meaningfulRetentionCeiling, settings.maxMeanF1RetentionRatio;
    var low := if ceiling < 1.0 then settings.minMeaningfulCompressionRate else 0.0;
    var k, n, share := ShareBetween(low, settings.minActualCompressionRate, most, settings.minEligibleExamples);
    var long, size, kept := LongEnough(share, ceiling, most);
    traces := Mixed(k, n, long);
    MixedStops(k, n, share, long, size, kept, budget, divide, settings, low);
    CanBeValidIff(traces, budget, divide, settings);
  }

  lemma MixedStops(k: nat, n: nat, share: real, long: nat, size: real, kept: real, budget: nat, divide: nat, settings: Settings, low: real)
    requires divide >= 1 && budget == 1 && settings.Valid() && settings.requireMeaningfulCompression
    requires 1 <= k <= n && share == k as real / n as real && low <= share < settings.minActualCompressionRate
    requires long >= 2 && size == long as real && kept == 1.0 / size
    requires 0.0 <= kept <= settings.meaningfulRetentionCeiling && kept <= share - (1.0 - settings.maxMeanF1RetentionRatio)
    requires settings.meaningfulRetentionCeiling == 1.0 || low == settings.minMeaningfulCompressionRate
    ensures var traces := Mixed(k, n, long);
            && |traces| == n
            && (forall t :: t in traces ==> t.prompt >= 1 && t.thinkStart == 0 && NoAttemptPastInspection(t, divide))
            && VerdictOf(traces, Some(budget), Some(settings)) == RateUnreachable
            && Count(traces, Compressed(budget, divide)) >= k
            && !RateGateFails(traces, budget, divide, settings)
            && MeanRetention(traces, budget, divide) <= settings.maxMeanF1RetentionRatio
  {
    hide VerdictOf, RateGateFails, NoAttemptPastInspection, Mixed, Count, SumOf, Longer, Compressed, Meaningful, Retention;
    var traces := Mixed(k, n, long);
    MixedLength(k, n, long);
    MixedPopulation(k, n, long, budget, divide);
    MixedMeaningful(k, n, long, size, budget, divide, settings.meaningfulRetentionCeiling);
    MixedMeasured(k, n, long, size, kept, budget, divide);
    MixedMean(k, n, share, kept, settings.maxMeanF1RetentionRatio);
    StopsOnRate(traces, budget, settings);
    GatePasses(traces, budget, divide, settings, k, low);
  }

  /** k of n, at least `many`, between both lower bounds and below the preflight's rate. */
  lemma ShareBetween(low: real, high: real, most: real, many: nat) returns (k: nat, n: nat, share: real)
    requires 0.0 <= low < high <= 1.0 && 1.0 < high + most && most <= 1.0 && many >= 1
    ensures many <= k <= n && share == k as real / n as real && low <= share < high && 1.0 - most < share <= 1.0
  {
    var floor := if low < 1.0 - most then 1.0 - most else low;
    var few, all := FractionBetween((floor + high) / 2.0, high);
    Repeated(few, all, many);
    k, n, share := few * many, all * many, few as real / all as real;
  }

  /** A length whose reciprocal leaves both retention bounds room. */
  lemma LongEnough(share: real, ceiling: real, most: real) returns (long: nat, size: real, kept: real)
    requires 1.0 - most < share <= 1.0 && 0.0 < ceiling <= 1.0
    ensures long >= 2 && size == long as real && kept == 1.0 / size && 0.0 <= kept <= ceiling && kept <= share - (1.0 - most)
  {
    var room := share - (1.0 - most);
    var gap := if room < ceiling then room else ceiling;
    long, size := LargeEnough(gap);
    MoreThanOne(long, size, gap);
    ReciprocalAtMost(size, gap);
    kept := 1.0 / size;
  }

  lemma MixedLength(k: nat, n: nat, long: nat)
    ensures |Mixed(k, n, long)| == n
  {
  }

  /** A population repeated keeps its shares. */
  lemma Repeated(k: nat, n: nat, many: nat)
    requires 1 <= k <= n && many >= 1
    ensures many <= k * many <= n * many
    ensures (k * many) as real / (n * many) as real == k as real / n as real
  {
    assert k * many >= many && (n - k) * many >= 0;
    assert (k * many) as real == k as real * many as real && (n * many) as real == n as real * many as real;
    SameShare(k as real, n as real, many as real);
  }

  lemma SameShare(a: real, b: real, m: real)
    requires b > 0.0 && m > 0.0
    ensures (a * m) / (b * m) == a / b
  {
    Products(b, m);
    var size := b * m;
    var share, p := a / b, (a * m) / size;
    assert share * b == a && p * size == a * m;
    assert share * size == (share * b) * m;
    Cancel(p, share, size);
  }

  /** With budget one, the cut at the prompt's end compresses just the long prompts. */
  lemma MixedMeasured(k: nat, n: nat, long: nat, size: real, kept: real, budget: nat, divide: nat)
    requires divide >= 1 && budget == 1 && k <= n && long >= 2 && size == long as real && kept == 1.0 / size
    ensures Count(Mixed(k, n, long), Compressed(budget, divide)) >= k
    ensures SumOf(Mixed(k, n, long), Retention(budget, divide)) == k as real * kept + (n - k) as real
  {
    hide Compressed, Retention;
    var traces := Mixed(k, n, long);
    forall i | 0 <= i < n
      ensures i < k ==> Compressed(budget, divide)(traces[i])
      ensures Retention(budget, divide)(traces[i]) == if i < k then kept else 1.0
    {
      AtPromptEnd(traces[i], if i < k then size else 1.0, budget, divide);
    }
    CountAtLeastPrefix(traces, k, Compressed(budget, divide));
    SumOfPrefix(traces, k, Retention(budget, divide), kept);
  }

  lemma AtPromptEnd(trace: Trace, size: real, budget: nat, divide: nat)
    requires divide >= 1 && budget == 1 && trace == Trace(trace.prompt, 0, 0) && size == trace.prompt as real >= 1.0
    ensures Retention(budget, divide)(trace) == 1.0 / size
    ensures trace.prompt >= 2 ==> Compressed(budget, divide)(trace)
  {
    Schedule.EvictionAtPrefill(trace.prompt, budget, divide);
    MeasuredAtPromptEnd(trace, budget, divide);
  }

  lemma {:induction false} SumOfPrefix<T>(xs: seq<T>, k: nat, f: T -> real, x: real)
    requires k <= |xs| && forall i :: 0 <= i < |xs| ==> f(xs[i]) == if i < k then x else 1.0
    ensures SumOf(xs, f) == k as real * x + (|xs| - k) as real
  {
    if xs != [] {
      SumOfPrefix(xs[..|xs| - 1], if k < |xs| then k else k - 1, f, x);
    }
  }

  /** The mean of k times x and n - k times one, when x leaves room below the ceiling. */
  lemma MixedMean(k: nat, n: nat, share: real, x: real, most: real)
    requires 1 <= k <= n && share == k as real / n as real && 0.0 <= x <= share - (1.0 - most)
    ensures (k as real * x + (n - k) as real) / n as real <= most
  {
    var a, b, room := k as real, n as real, share - (1.0 - most);
    Products(b - a, x);
    Products(b, room - x);
    assert (b - a) * x == b * x - a * x && b * (room - x) == b * room - b * x;
    assert b * room == share * b - b + most * b && share * b == a;
    CrossMultiply(a * x + (b - a), b, most, 1.0);
  }

  /** A population on which the rate STOP fires and the rate gate passes. */
  lemma UnsoundRateStop(settings: Settings, budget: nat, divide: nat) returns (traces: seq<Trace>)
    requires settings.Valid() && budget == 1 && divide >= 1
    requires !RateThresholdsAgree(settings)
    ensures traces != []
    ensures forall t :: t in traces ==> t.prompt >= 1 && t.thinkStart == 0 && NoAttemptPastInspection(t, divide)
    ensures VerdictOf(traces, Some(budget), Some(settings)) == RateUnreachable
    ensures !RateGateFails(traces, budget, divide, settings)
  {
    var ceiling := settings.meaningfulRetentionCeiling;
    var low := if ceiling < 1.0 then settings.minMeaningfulCompressionRate else 0.0;
    var k, n := FractionBetween(low, settings.minActualCompressionRate);
    var long, size := LargeEnough(ceiling);
    traces := Mixed(k, n, long);
    MoreThanOne(long, size, ceiling);
    ReciprocalAtMost(size, ceiling);
    MixedPopulation(k, n, long, budget, divide);
    MixedMeaningful(k, n, long, size, budget, divide, ceiling);
    StopsOnRate(traces, budget, settings);
    GatePasses(traces, budget, divide, settings, k, low);
  }

  lemma MoreThanOne(n: nat, size: real, ceiling: real)
    requires size == n as real && size * ceiling > 1.0 && 0.0 < ceiling <= 1.0
    ensures n >= 2
  {
    assert n == 1 ==> size * ceiling == ceiling;
  }

  lemma MixedPopulation(k: nat, n: nat, long: nat, budget: nat, divide: nat)
    requires divide >= 1 && budget == 1 && k <= n && long >= 2
    ensures forall t :: t in Mixed(k, n, long) ==> t.prompt >= 1 && t.thinkStart == 0 && NoAttemptPastInspection(t, divide)
    ensures Count(Mixed(k, n, long), Longer(budget)) == k
  {
    forall t | t in Mixed(k, n, long)
      ensures NoAttemptPastInspection(t, divide)
    {
      SpanAtGenerationStart(t, divide);
    }
    CountPrefix(Mixed(k, n, long), k, Longer(budget));
  }

  lemma MixedMeaningful(k: nat, n: nat, long: nat, size: real, budget: nat, divide: nat, ceiling: real)
    requires divide >= 1 && budget == 1 && k <= n && long >= 2 && size == long as real
    requires 1.0 / size <= ceiling
    ensures Count(Mixed(k, n, long), Meaningful(budget, divide, ceiling)) >= k
    ensures ceiling == 1.0 ==> Count(Mixed(k, n, long), Meaningful(budget, divide, ceiling)) == n
  {
    var traces, meaningful := Mixed(k, n, long), Meaningful(budget, divide, ceiling);
    forall i | 0 <= i < n && (ceiling == 1.0 || i < k)
      ensures meaningful(traces[i])
    {
      MeaningfulAtPromptEnd(traces[i], if i < k then size else 1.0, budget, divide, ceiling);
    }
    CountAtLeastPrefix(traces, k, meaningful);
    if ceiling == 1.0 {
      CountEverything(traces, meaningful);
    }
  }

  lemma StopsOnRate(traces: seq<Trace>, budget: nat, settings: Settings)
    requires traces != [] && Count(traces, Longer(budget)) > 0
    requires FractionLonger(traces, budget) < settings.minActualCompressionRate
    ensures VerdictOf(traces, Some(budget), Some(settings)) == RateUnreachable
  {
  }

  lemma GatePasses(traces: seq<Trace>, budget: nat, divide: nat, settings: Settings, k: nat, low: real)
    requires traces != [] && divide >= 1 && settings.Valid() && settings.requireMeaningfulCompression
    requires low <= k as real / |traces| as real
    requires var meaningful := Count(traces, Meaningful(budget, divide, settings.meaningfulRetentionCeiling));
             (low == settings.minMeaningfulCompressionRate && meaningful >= k) || meaningful == |traces|
    ensures !RateGateFails(traces, budget, divide, settings)
  {
    var meaningful := Count(traces, Meaningful(budget, divide, settings.meaningfulRetentionCeiling));
    if meaningful == |traces| {
      SelfRatio(|traces| as real);
    } else {
      DivideMonotone(k as real, meaningful as real, |traces| as real);
    }
  }

  /** k long prompts followed by one-token prompts, none with any thinking. */
  function Mixed(k: nat, n: nat, long: nat): seq<Trace> {
    seq(n, i requires 0 <= i < n => Trace(if i < k then long else 1, 0, 0))
  }

  lemma {:induction false} CountPrefix<T>(xs: seq<T>, k: nat, p: T -> bool)
    requires k <= |xs| && forall i :: 0 <= i < |xs| ==> p(xs[i]) == (i < k)
    ensures Count(xs, p) == k
  {
    if xs != [] {
      CountPrefix(xs[..|xs| - 1], if k < |xs| then k else k - 1, p);
    }
  }

  lemma {:induction false} CountAtLeastPrefix<T>(xs: seq<T>, k: nat, p: T -> bool)
    requires k <= |xs| && forall i :: 0 <= i < k ==> p(xs[i])
    ensures Count(xs, p) >= k
  {
    if xs != [] {
      CountAtLeastPrefix(xs[..|xs| - 1], if k < |xs| then k else k - 1, p);
    }
  }

  /** An empty think span at the start of the generation: the snapshot sees the prefill. */
  lemma MeasuredAtPromptEnd(trace: Trace, budget: nat, divide: nat)
    requires divide >= 1 && trace.prompt >= budget >= 1 && trace == Trace(trace.prompt, 0, 0)
    ensures Retention(budget, divide)(trace) == budget as real / trace.prompt as real
  {
    Schedule.EvictionAtPrefill(trace.prompt, budget, divide);
  }

  lemma MeaningfulAtPromptEnd(trace: Trace, size: real, budget: nat, divide: nat, ceiling: real)
    requires divide >= 1 && trace.prompt >= budget == 1 && trace == Trace(trace.prompt, 0, 0)
    requires size == trace.prompt as real && 1.0 / size <= ceiling
    ensures Meaningful(budget, divide, ceiling)(trace)
  {
    MeasuredAtPromptEnd(trace, budget, divide);
  }

  // ---------------------------------------------------------------- where a STOP misleads

  /** Under the meaningful-compression gate a rate STOP may be wrong: with thresholds 0.7 and
      0.25 there are traces the preflight stops on although their screen can be valid. */
  lemma RateStopCanMislead(settings: Settings) returns (traces: seq<Trace>)
    requires settings == Settings(1, 0.7, 0.7, 0.7, true, 0, 0.25, 0.1, None, 2)
    ensures settings.Valid() && traces != [] && forall t :: t in traces ==> t.prompt >= 1 && t.thinkStart == 0
    ensures VerdictOf(traces, Some(1), Some(settings)) == RateUnreachable
    ensures ScreenCanBeValid(traces, 1, 128, settings)
  {
    traces := WrongRateStop(settings, 1, 128);
  }

  /** With text before the think span a STOP may be wrong, at the period the lock file sets:
      110 tokens are inspected, the f=1 cut is at 160, and the attempt at 129 compresses. */
  lemma StopCanMisleadPastTheSpan(trace: Trace, divide: nat)
    requires trace == Trace(100, 50, 60) && divide == 128
    ensures Schedule.LastAttempt(trace.prompt, trace.FullCut(), divide) == 129
    ensures trace.InspectedLength() == 110 && trace.FullCut() == 160 && !EveryStopSound(trace, divide)
    ensures VerdictOf([trace], Some(110), Some(Lenient())) == NoTraceLongerThanBudget
    ensures ScreenCanBeValid([trace], 110, divide, Lenient())
  {
    Schedule.DivModUnique(trace.FullCut() - 1, divide, 1, 31);
    WrongStop(trace, divide);
    EveryStopSoundIff(trace, divide);
  }

  lemma OneTrace(trace: Trace, budget: nat, divide: nat)
    requires divide >= 1
    ensures Count([trace], Longer(budget)) == (if Longer(budget)(trace) then 1 else 0)
    ensures Count([trace], Compressed(budget, divide)) == (if Compressed(budget, divide)(trace) then 1 else 0)
    ensures SumOf([trace], Retention(budget, divide)) == Retention(budget, divide)(trace)
  {
    CountSnoc([], trace, Longer(budget));
    CountSnoc([], trace, Compressed(budget, divide));
    SumOfSnoc([], trace, Retention(budget, divide));
    assert [] + [trace] == [trace];
  }

  lemma OneCompressedTraceCanBeValid(trace: Trace, budget: nat, divide: nat, settings: Settings)
    requires divide >= 1 && settings.Valid() && settings.minEligibleExamples == 1 && !settings.requireMeaningfulCompression
    requires Count([trace], Compressed(budget, divide)) == 1
    requires SumOf([trace], Retention(budget, divide)) <= settings.maxMeanF1RetentionRatio
    ensures ScreenCanBeValid([trace], budget, divide, settings)
  {
    CanBeValidIff([trace], budget, divide, settings);
  }
}

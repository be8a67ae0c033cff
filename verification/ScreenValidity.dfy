/** The fixed-trace screen's thresholds and its validity gate
    (src/kvcot/config.py, src/kvcot/analysis/fixed_trace.py). */
module ScreenValidity {
  import opened Prelude

  datatype Settings = Settings(
    minEligibleExamples: nat,
    minActualCompressionRate: real,
    maxMeanF1RetentionRatio: real,
    meaningfulRetentionCeiling: real,
    requireMeaningfulCompression: bool,
    minMeaningfullyCompressedScoredFractions: nat,
    minMeaningfulCompressionRate: real,
    maxPilotAccuracyDrop: real,
    maxSelectedExamples: Option<nat>,
    minCompressedScoredFractionsForCpss: nat)
  {
    /** The field constraints the stage configuration enforces. */
    predicate Valid() {
      && minEligibleExamples >= 1
      && 0.0 <= minActualCompressionRate <= 1.0
      && 0.0 < maxMeanF1RetentionRatio <= 1.0
      && 0.0 < meaningfulRetentionCeiling <= 1.0
      && 0.0 <= minMeaningfulCompressionRate <= 1.0
      && 0.0 <= maxPilotAccuracyDrop <= 1.0
      && (maxSelectedExamples.Some? ==> maxSelectedExamples.value >= 1)
      && minCompressedScoredFractionsForCpss >= 1
    }
  }

  datatype InvalidReason =
    | TooFewEligible
    | MeaningfulCompressionRateTooLow
    | ActualCompressionRateTooLow
    | RetentionTooHigh
    | PilotAccuracyImplausible
    | StrictGateFailed

  predicate Below(value: Option<real>, threshold: real) { value.None? || value.value < threshold }

  predicate Above(value: Option<real>, threshold: real) { value.None? || value.value > threshold }

  /** `build_screen_validity`: the screen is valid when no reason is collected. The accuracy
      arguments are the plausibility and gate flags, None when the protocol has none. */
  function InvalidReasons(nEligible: nat, actualRate: Option<real>, meanRetention: Option<real>, settings: Settings,
                          plausible: Option<bool>, meaningfulRate: Option<real>, gatePassed: Option<bool>)
    : seq<InvalidReason>
  {
    (if nEligible < settings.minEligibleExamples then [TooFewEligible] else [])
    + (if settings.requireMeaningfulCompression
       then if Below(meaningfulRate, settings.minMeaningfulCompressionRate) then [MeaningfulCompressionRateTooLow] else []
       else if Below(actualRate, settings.minActualCompressionRate) then [ActualCompressionRateTooLow] else [])
    + (if Above(meanRetention, settings.maxMeanF1RetentionRatio) then [RetentionTooHigh] else [])
    + (if plausible == Some(false) then [PilotAccuracyImplausible] else [])
    + (if gatePassed == Some(false) then [StrictGateFailed] else [])
  }

  /** What a valid screen has: enough eligible examples, a rate and a retention that were
      measured and clear their thresholds, and no accuracy check that was made and failed. */
  lemma ScreenValidIff(nEligible: nat, actualRate: Option<real>, meanRetention: Option<real>, settings: Settings,
                       plausible: Option<bool>, meaningfulRate: Option<real>, gatePassed: Option<bool>)
    ensures var rate := if settings.requireMeaningfulCompression then meaningfulRate else actualRate;
            var least := if settings.requireMeaningfulCompression then settings.minMeaningfulCompressionRate
                         else settings.minActualCompressionRate;
            InvalidReasons(nEligible, actualRate, meanRetention, settings, plausible, meaningfulRate, gatePassed) == [] <==>
              && nEligible >= settings.minEligibleExamples
              && rate.Some? && rate.value >= least
              && meanRetention.Some? && meanRetention.value <= settings.maxMeanF1RetentionRatio
              && plausible != Some(false) && gatePassed != Some(false)
  {
  }

  /** Each reason is given exactly when its own threshold is missed or its own check failed. */
  lemma ReasonsIff(nEligible: nat, actualRate: Option<real>, meanRetention: Option<real>, settings: Settings,
                   plausible: Option<bool>, meaningfulRate: Option<real>, gatePassed: Option<bool>)
    ensures var reasons := InvalidReasons(nEligible, actualRate, meanRetention, settings, plausible, meaningfulRate, gatePassed);
            && (TooFewEligible in reasons <==> nEligible < settings.minEligibleExamples)
            && (MeaningfulCompressionRateTooLow in reasons <==>
                 settings.requireMeaningfulCompression && (meaningfulRate.None? || meaningfulRate.value < settings.minMeaningfulCompressionRate))
            && (ActualCompressionRateTooLow in reasons <==>
                 !settings.requireMeaningfulCompression && (actualRate.None? || actualRate.value < settings.minActualCompressionRate))
            && (RetentionTooHigh in reasons <==> meanRetention.None? || meanRetention.value > settings.maxMeanF1RetentionRatio)
            && (PilotAccuracyImplausible in reasons <==> plausible == Some(false))
            && (StrictGateFailed in reasons <==> gatePassed == Some(false))
  {
    var a := if nEligible < settings.minEligibleExamples then [TooFewEligible] else [];
    var b := if settings.requireMeaningfulCompression
             then if Below(meaningfulRate, settings.minMeaningfulCompressionRate) then [MeaningfulCompressionRateTooLow] else []
             else if Below(actualRate, settings.minActualCompressionRate) then [ActualCompressionRateTooLow] else [];
    var c := if Above(meanRetention, settings.maxMeanF1RetentionRatio) then [RetentionTooHigh] else [];
    var d := if plausible == Some(false) then [PilotAccuracyImplausible] else [];
    var e := if gatePassed == Some(false) then [StrictGateFailed] else [];
    var reasons := InvalidReasons(nEligible, actualRate, meanRetention, settings, plausible, meaningfulRate, gatePassed);
    assert reasons == a + b + c + d + e;
    hide InvalidReasons;
    AmongFive(a, b, c, d, e, TooFewEligible);
    AmongFive(a, b, c, d, e, MeaningfulCompressionRateTooLow);
    AmongFive(a, b, c, d, e, ActualCompressionRateTooLow);
    AmongFive(a, b, c, d, e, RetentionTooHigh);
    AmongFive(a, b, c, d, e, PilotAccuracyImplausible);
    AmongFive(a, b, c, d, e, StrictGateFailed);
  }

  lemma AmongFive<T>(a: seq<T>, b: seq<T>, c: seq<T>, d: seq<T>, e: seq<T>, x: T)
    ensures x in a + b + c + d + e <==> x in a || x in b || x in c || x in d || x in e
  {
  }
}

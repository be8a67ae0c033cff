/** The CPU simulator of R-KV's compression schedule (src/kvcot/analysis/rkv_schedule.py).

    The source walks one simulated forward call at a time and says that its sawtooth
    has no closed form. It has one, and this module proves it: the cache has lost
    exactly the amount by which the latest attempted compression exceeded the budget. */
module RkvSchedule {
  import opened Prelude

  datatype Step = Step(absolutePosition: int, physicalLength: int, eventFired: bool)

  // ---------------------------------------------------------------- specification

  /** The call that ends at `pos` attempts a compression: the prefill always, a decode
      call when the previous call's running length was a multiple of `divide`. */
  predicate Attempted(prompt: nat, pos: int, divide: nat)
    requires divide >= 1
  {
    pos == prompt || (pos > prompt && (pos - 1) % divide == 0)
  }

  /** The latest attempt at or before `pos`. */
  function LastAttempt(prompt: nat, pos: int, divide: nat): (a: int)
    requires divide >= 1 && pos >= prompt
  {
    if pos == prompt then prompt else Max(prompt, pos - (pos - 1) % divide)
  }

  /** Cache slots lost by the time `pos` tokens have been processed. */
  function Evicted(prompt: nat, pos: int, budget: nat, divide: nat): nat
    requires divide >= 1 && pos >= prompt
  {
    Max(0, LastAttempt(prompt, pos, divide) - budget)
  }

  /** Physical cache length at `pos`. */
  function LengthAt(prompt: nat, pos: int, budget: nat, divide: nat): int
    requires divide >= 1 && pos >= prompt
  {
    pos - Evicted(prompt, pos, budget, divide)
  }

  predicate EventAt(prompt: nat, pos: int, budget: nat, divide: nat)
    requires divide >= 1
  {
    Attempted(prompt, pos, divide) && pos > budget
  }

  function StepAt(prompt: nat, pos: int, budget: nat, divide: nat): Step
    requires divide >= 1 && pos >= prompt
  {
    Step(pos, LengthAt(prompt, pos, budget, divide), EventAt(prompt, pos, budget, divide))
  }

  /** The steps the walk yields, one for every position from the prompt's end on. */
  function Walk(prompt: nat, maxPosition: int, budget: nat, divide: nat): seq<Step>
    requires divide >= 1
  {
    seq(Max(maxPosition - prompt, 0) + 1, i requires i >= 0 => StepAt(prompt, prompt + i, budget, divide))
  }

  // ---------------------------------------------------------------- the walk itself

  /** The one-call-at-a-time walk with its delayed flag computes exactly the closed form. */
  method WalkSchedule(promptLength: nat, maxPosition: int, budget: nat, divideLength: nat) returns (steps: seq<Step>)
    requires divideLength >= 1
    ensures steps == Walk(promptLength, maxPosition, budget, divideLength)
  {
    var physicalLength := Min(promptLength, budget);
    var selfLength := promptLength;
    steps := [Step(promptLength, physicalLength, promptLength > budget)];
    EvictionAtPrefill(promptLength, budget, divideLength);
    var compressionFlagNext := selfLength % divideLength == 0;
    var absolutePosition: int := promptLength;
    while absolutePosition < maxPosition
      invariant promptLength <= absolutePosition <= Max(promptLength, maxPosition)
      invariant selfLength == absolutePosition
      invariant compressionFlagNext == Attempted(promptLength, absolutePosition + 1, divideLength)
      invariant physicalLength == LengthAt(promptLength, absolutePosition, budget, divideLength)
      invariant steps == Walk(promptLength, absolutePosition, budget, divideLength)
    {
      EvictionStep(promptLength, absolutePosition + 1, budget, divideLength);
      WalkSnoc(promptLength, absolutePosition + 1, budget, divideLength);
      selfLength := selfLength + 1;
      absolutePosition := absolutePosition + 1;
      var candidate := physicalLength + 1;
      var eventFired: bool;
      if compressionFlagNext {
        physicalLength := Min(candidate, budget);
        eventFired := candidate > budget;
      } else {
        physicalLength := candidate;
        eventFired := false;
      }
      compressionFlagNext := selfLength % divideLength == 0;
      steps := steps + [Step(absolutePosition, physicalLength, eventFired)];
    }
  }

  lemma EvictionAtPrefill(prompt: nat, budget: nat, divide: nat)
    requires divide >= 1
    ensures StepAt(prompt, prompt, budget, divide) == Step(prompt, Min(prompt, budget), prompt > budget)
    ensures Walk(prompt, prompt, budget, divide) == [StepAt(prompt, prompt, budget, divide)]
  {
  }

  // ---------------------------------------------------------------- the schedule

  /** Stepping back by one position, in terms of the remainder. */
  lemma RemainderOfPredecessor(n: int, divide: nat)
    requires divide >= 1 && n >= 1
    ensures (n - 1) % divide == (if n % divide == 0 then divide - 1 else n % divide - 1)
    ensures n / divide - (n - 1) / divide == (if n % divide == 0 then 1 else 0)
  {
    var q, r := n / divide, n % divide;
    assert n == q * divide + r;
    if r == 0 {
      assert n - 1 == (q - 1) * divide + (divide - 1);
      DivModUnique(n - 1, divide, q - 1, divide - 1);
    } else {
      DivModUnique(n - 1, divide, q, r - 1);
    }
  }

  lemma DivModUnique(n: int, divide: nat, q: int, r: int)
    requires divide >= 1 && 0 <= r < divide && n == q * divide + r
    ensures n / divide == q && n % divide == r
  {
    var q', r' := n / divide, n % divide;
    assert n == q' * divide + r';
    if q > q' {
      AtLeastOnePeriod(q - q', divide);
    } else if q < q' {
      AtLeastOnePeriod(q' - q, divide);
    }
  }

  lemma {:induction false} AtLeastOnePeriod(k: int, divide: nat)
    requires k >= 1
    ensures k * divide >= divide
  {
    if k > 1 {
      AtLeastOnePeriod(k - 1, divide);
      assert k * divide == (k - 1) * divide + divide;
    }
  }

  /** `LastAttempt` is an attempt, and none lies between it and `pos`. */
  lemma {:induction false} LastAttemptIsLatest(prompt: nat, pos: int, divide: nat)
    requires divide >= 1 && pos >= prompt
    ensures prompt <= LastAttempt(prompt, pos, divide) <= pos
    ensures Attempted(prompt, LastAttempt(prompt, pos, divide), divide)
    ensures forall b :: LastAttempt(prompt, pos, divide) < b <= pos ==> !Attempted(prompt, b, divide)
    decreases pos
  {
    if pos > prompt {
      LastAttemptIsLatest(prompt, pos - 1, divide);
      LastAttemptStep(prompt, pos, divide);
    }
  }

  /** The latest attempt moves to `pos` exactly when `pos` is one. */
  lemma LastAttemptStep(prompt: nat, pos: int, divide: nat)
    requires divide >= 1 && pos > prompt
    ensures LastAttempt(prompt, pos, divide)
            == if Attempted(prompt, pos, divide) then pos else LastAttempt(prompt, pos - 1, divide)
    ensures Attempted(prompt, pos, divide) ==> LastAttempt(prompt, pos - 1, divide) == Max(prompt, pos - divide)
  {
    if pos >= 2 {
      RemainderOfPredecessor(pos - 1, divide);
      assert pos - 2 == pos - 1 - 1;
    } else {
      DivModUnique(0, divide, 0, 0);
    }
  }

  /** One decode call: what it evicts, and the arithmetic the walk performs for it. */
  lemma EvictionStep(prompt: nat, pos: int, budget: nat, divide: nat)
    requires divide >= 1 && pos > prompt
    ensures Evicted(prompt, pos, budget, divide) - Evicted(prompt, pos - 1, budget, divide)
            == if EventAt(prompt, pos, budget, divide) then Min(divide, pos - Max(prompt, budget)) else 0
    ensures var candidate := LengthAt(prompt, pos - 1, budget, divide) + 1;
            if Attempted(prompt, pos, divide)
            then LengthAt(prompt, pos, budget, divide) == Min(candidate, budget)
                 && (EventAt(prompt, pos, budget, divide) <==> candidate > budget)
            else LengthAt(prompt, pos, budget, divide) == candidate
  {
    LastAttemptStep(prompt, pos, divide);
    LastAttemptIsLatest(prompt, pos - 1, divide);
  }

  // ---------------------------------------------------------------- bounds

  /** The sawtooth: never below min(pos, budget), never above budget + divide - 1. */
  lemma LengthBounds(prompt: nat, pos: int, budget: nat, divide: nat)
    requires divide >= 1 && pos >= prompt
    ensures Min(pos, budget) <= LengthAt(prompt, pos, budget, divide) <= Min(pos, budget + divide - 1)
  {
    LastAttemptIsLatest(prompt, pos, divide);
  }

  lemma MultipleAbove(k: nat, divide: nat) returns (multiple: int)
    requires divide >= 1
    ensures multiple >= k && multiple % divide == 0 && (multiple + divide - 1) % divide == divide - 1
  {
    multiple := k * divide;
    assert multiple == k * (divide - 1) + k;
    DivModUnique(multiple, divide, k, 0);
    DivModUnique(multiple + divide - 1, divide, k, divide - 1);
  }

  /** Both ends of the sawtooth are reached, for every prompt, budget and period. */
  lemma LengthBoundsAreTight(prompt: nat, budget: nat, divide: nat) returns (trough: int, crest: int)
    requires divide >= 1
    ensures trough > Max(prompt, budget) && LengthAt(prompt, trough, budget, divide) == budget
    ensures crest > Max(prompt, budget) && LengthAt(prompt, crest, budget, divide) == budget + divide - 1
  {
    var multiple := MultipleAbove(prompt + budget, divide);
    trough, crest := multiple + 1, multiple + divide;
    assert crest - 1 == multiple + divide - 1;
  }

  /** A larger budget never shortens the cache. */
  lemma LengthMonotoneInBudget(prompt: nat, pos: int, small: nat, large: nat, divide: nat)
    requires divide >= 1 && pos >= prompt && small <= large
    ensures LengthAt(prompt, pos, small, divide) <= LengthAt(prompt, pos, large, divide)
  {
  }

  // ---------------------------------------------------------------- predicted events

  function FiredPositions(steps: seq<Step>): seq<int> {
    if steps == [] then []
    else
      var last := steps[|steps| - 1];
      FiredPositions(steps[..|steps| - 1]) + (if last.eventFired then [last.absolutePosition] else [])
  }

  /** `predicted_compaction_event_positions`. */
  function PredictedEvents(prompt: nat, maxPosition: int, budget: nat, divide: nat): seq<int>
    requires divide >= 1
  {
    if maxPosition < prompt then [] else FiredPositions(Walk(prompt, maxPosition, budget, divide))
  }

  /** Number of periodic attempts in (lo, hi]. */
  function PeriodicAttempts(lo: int, hi: int, divide: nat): int
    requires divide >= 1
  {
    if hi <= lo then 0 else (hi - 1) / divide - (lo - 1) / divide
  }

  lemma WalkSnoc(prompt: nat, maxPosition: int, budget: nat, divide: nat)
    requires divide >= 1 && maxPosition > prompt
    ensures Walk(prompt, maxPosition, budget, divide)
            == Walk(prompt, maxPosition - 1, budget, divide)
               + [StepAt(prompt, maxPosition, budget, divide)]
  {
  }

  lemma PredictedEventsSnoc(prompt: nat, maxPosition: int, budget: nat, divide: nat)
    requires divide >= 1 && maxPosition > prompt
    ensures PredictedEvents(prompt, maxPosition, budget, divide)
            == PredictedEvents(prompt, maxPosition - 1, budget, divide)
               + (if EventAt(prompt, maxPosition, budget, divide) then [maxPosition] else [])
  {
    WalkSnoc(prompt, maxPosition, budget, divide);
    var steps := Walk(prompt, maxPosition, budget, divide);
    assert steps[..|steps| - 1] == Walk(prompt, maxPosition - 1, budget, divide);
  }

  lemma PredictedEventsOfPrefill(prompt: nat, budget: nat, divide: nat)
    requires divide >= 1
    ensures PredictedEvents(prompt, prompt, budget, divide) == if prompt > budget then [prompt] else []
  {
    var steps := Walk(prompt, prompt, budget, divide);
    assert steps == [StepAt(prompt, prompt, budget, divide)];
    assert steps[..0] == [];
    assert FiredPositions(steps[..0]) == [];
  }

  lemma PeriodicAttemptsStep(lo: int, hi: int, divide: nat)
    requires divide >= 1 && 0 <= lo < hi
    ensures PeriodicAttempts(lo, hi, divide) - PeriodicAttempts(lo, hi - 1, divide) == (if (hi - 1) % divide == 0 then 1 else 0)
  {
    if hi >= 2 {
      RemainderOfPredecessor(hi - 1, divide);
    } else {
      DivModUnique(0, divide, 0, 0);
      DivModUnique(-1, divide, -1, divide - 1);
    }
  }

  lemma {:induction false} PredictedEventsMembers(prompt: nat, maxPosition: int, budget: nat, divide: nat)
    requires divide >= 1 && maxPosition >= prompt
    ensures forall a :: a in PredictedEvents(prompt, maxPosition, budget, divide) <==>
              prompt <= a <= maxPosition && EventAt(prompt, a, budget, divide)
    decreases maxPosition
  {
    if maxPosition == prompt {
      PredictedEventsOfPrefill(prompt, budget, divide);
    } else {
      PredictedEventsSnoc(prompt, maxPosition, budget, divide);
      PredictedEventsMembers(prompt, maxPosition - 1, budget, divide);
    }
  }

  lemma {:induction false} PredictedEventsOrdered(prompt: nat, maxPosition: int, budget: nat, divide: nat)
    requires divide >= 1 && maxPosition >= prompt
    ensures var events := PredictedEvents(prompt, maxPosition, budget, divide);
            && (forall i :: 0 <= i < |events| ==> events[i] <= maxPosition)
            && (forall i, j :: 0 <= i < j < |events| ==> events[i] < events[j])
            && |events| == (if prompt > budget then 1 else 0)
                           + PeriodicAttempts(Max(prompt, budget), maxPosition, divide)
    decreases maxPosition
  {
    if maxPosition == prompt {
      PredictedEventsOfPrefill(prompt, budget, divide);
    } else {
      PredictedEventsSnoc(prompt, maxPosition, budget, divide);
      PredictedEventsOrdered(prompt, maxPosition - 1, budget, divide);
      if maxPosition > Max(prompt, budget) {
        PeriodicAttemptsStep(Max(prompt, budget), maxPosition, divide);
      }
    }
  }

  /** The exact event list: the prompt itself when it exceeds the budget, then every
      periodic attempt beyond both prompt and budget, in increasing order; and its length. */
  lemma PredictedEventsExact(prompt: nat, maxPosition: int, budget: nat, divide: nat)
    requires divide >= 1 && maxPosition >= prompt
    ensures var events := PredictedEvents(prompt, maxPosition, budget, divide);
            && (forall i, j :: 0 <= i < j < |events| ==> events[i] < events[j])
            && (forall a :: a in events <==>
                  (a == prompt && prompt > budget)
                  || (Max(prompt, budget) < a <= maxPosition && (a - 1) % divide == 0))
            && |events| == (if prompt > budget then 1 else 0)
                           + PeriodicAttempts(Max(prompt, budget), maxPosition, divide)
  {
    PredictedEventsMembers(prompt, maxPosition, budget, divide);
    PredictedEventsOrdered(prompt, maxPosition, budget, divide);
    forall a
      ensures prompt <= a <= maxPosition && EventAt(prompt, a, budget, divide) <==>
                (a == prompt && prompt > budget)
                || (Max(prompt, budget) < a <= maxPosition && (a - 1) % divide == 0)
    {
    }
  }

  /** Conservation: everything processed is either cached or was evicted by a listed event. */
  lemma {:induction false} EventsAccountForEveryEviction(prompt: nat, maxPosition: int, budget: nat, divide: nat)
    requires divide >= 1 && maxPosition >= prompt
    ensures maxPosition == LengthAt(prompt, maxPosition, budget, divide)
              + TotalEvicted(prompt, PredictedEvents(prompt, maxPosition, budget, divide), budget, divide)
    decreases maxPosition
  {
    if maxPosition == prompt {
      PredictedEventsOfPrefill(prompt, budget, divide);
      assert [prompt][..0] == [];
    } else {
      EventsAccountForEveryEviction(prompt, maxPosition - 1, budget, divide);
      PredictedEventsSnoc(prompt, maxPosition, budget, divide);
      EvictionStep(prompt, maxPosition, budget, divide);
      var before := PredictedEvents(prompt, maxPosition - 1, budget, divide);
      assert (before + [maxPosition])[..|before|] == before;
      assert before + [] == before;
    }
  }

  /** What the listed events evict: the prompt's excess, a partial period first, full periods after. */
  function TotalEvicted(prompt: nat, events: seq<int>, budget: nat, divide: nat): int
    requires divide >= 1
  {
    if events == [] then 0
    else
      var a := events[|events| - 1];
      TotalEvicted(prompt, events[..|events| - 1], budget, divide)
      + (if a == prompt then prompt - budget else Min(divide, a - Max(prompt, budget)))
  }

  // ---------------------------------------------------------------- simulated lengths

  datatype ScheduleError = TargetBeforePrefill

  function LengthsOf(steps: seq<Step>, targets: set<int>): map<int, int> {
    if steps == [] then map[]
    else
      var last := steps[|steps| - 1];
      var before := LengthsOf(steps[..|steps| - 1], targets);
      if last.absolutePosition in targets then before[last.absolutePosition := last.physicalLength] else before
  }

  /** `simulate_rkv_cache_lengths`. */
  function SimulateCacheLengths(prompt: nat, targets: seq<int>, budget: nat, divide: nat)
    : Result<map<int, int>, ScheduleError>
    requires divide >= 1
  {
    if exists pos :: pos in targets && pos < prompt then Err(TargetBeforePrefill)
    else
      var maxTarget := if targets == [] then prompt else Largest(targets);
      Ok(LengthsOf(Walk(prompt, maxTarget, budget, divide), Elements(targets)))
  }

  lemma {:induction false} LengthsOfWalk(prompt: nat, maxPosition: int, targets: set<int>, budget: nat, divide: nat)
    requires divide >= 1 && maxPosition >= prompt
    ensures var lengths := LengthsOf(Walk(prompt, maxPosition, budget, divide), targets);
            && (forall pos :: pos in lengths <==> pos in targets && prompt <= pos <= maxPosition)
            && (forall pos :: pos in lengths ==> lengths[pos] == LengthAt(prompt, pos, budget, divide))
    decreases maxPosition
  {
    var steps := Walk(prompt, maxPosition, budget, divide);
    if maxPosition == prompt {
      assert steps == [StepAt(prompt, prompt, budget, divide)];
      assert LengthsOf(steps[..0], targets) == map[];
    } else {
      LengthsOfWalk(prompt, maxPosition - 1, targets, budget, divide);
      WalkSnoc(prompt, maxPosition, budget, divide);
      assert steps[..|steps| - 1] == Walk(prompt, maxPosition - 1, budget, divide);
    }
  }

  /** Every requested target gets an entry, and nothing else does; a target inside the
      prompt is the only error. */
  lemma SimulateCacheLengthsExact(prompt: nat, targets: seq<int>, budget: nat, divide: nat)
    requires divide >= 1
    ensures var r := SimulateCacheLengths(prompt, targets, budget, divide);
            && (r.Ok? <==> forall pos :: pos in targets ==> pos >= prompt)
            && (r.Ok? ==> forall pos :: pos in r.value <==> pos in targets)
            && (r.Ok? ==> forall pos :: pos in r.value ==> r.value[pos] == LengthAt(prompt, pos, budget, divide))
  {
    if forall pos :: pos in targets ==> pos >= prompt {
      var maxTarget := if targets == [] then prompt else Largest(targets);
      LengthsOfWalk(prompt, maxTarget, Elements(targets), budget, divide);
    }
  }

  // ---------------------------------------------------------------- retention and eligibility

  /** `retention_ratio`. */
  function RetentionRatio(physicalLength: int, fullkvEquivalentSlots: int): real {
    if fullkvEquivalentSlots <= 0 then 1.0 else physicalLength as real / fullkvEquivalentSlots as real
  }

  /** `predict_retention_by_fraction`: probe fraction number k (k eighths) is cut at `cuts[k]`. */
  function PredictRetention(prompt: nat, cuts: seq<int>, budget: nat, divide: nat): Result<seq<real>, ScheduleError>
    requires divide >= 1
  {
    SimulateCacheLengthsExact(prompt, cuts, budget, divide);
    var lengths := SimulateCacheLengths(prompt, cuts, budget, divide);
    if lengths.Err? then Err(lengths.error)
    else
      assert forall k :: 0 <= k < |cuts| ==> cuts[k] in cuts;
      Ok(seq(|cuts|, k requires 0 <= k < |cuts| => RetentionRatio(lengths.value[cuts[k]], cuts[k])))
  }

  /** `meaningfully_compressed_fractions`. */
  function MeaningfullyCompressed(retention: seq<real>, ceiling: real): set<nat> {
    set k: nat | k < |retention| && retention[k] <= ceiling
  }

  const FULL_SPAN: nat := 8

  /** The eligibility rule of the selection writer. */
  predicate PredictedEligible(prompt: nat, cuts: seq<int>, scored: set<nat>, budget: nat, divide: nat,
                              ceiling: real, minScored: int)
    requires divide >= 1
  {
    var retention := PredictRetention(prompt, cuts, budget, divide);
    && retention.Ok?
    && FULL_SPAN < |retention.value|
    && retention.value[FULL_SPAN] <= ceiling
    && |MeaningfullyCompressed(retention.value, ceiling) * scored| >= minScored
  }

  lemma PredictRetentionExact(prompt: nat, cuts: seq<int>, budget: nat, divide: nat)
    requires divide >= 1
    ensures var r := PredictRetention(prompt, cuts, budget, divide);
            && (r.Ok? <==> forall pos :: pos in cuts ==> pos >= prompt)
            && (r.Ok? ==> |r.value| == |cuts| && forall k :: 0 <= k < |cuts| ==>
                 cuts[k] >= prompt && r.value[k] == RetentionRatio(LengthAt(prompt, cuts[k], budget, divide), cuts[k]))
  {
    SimulateCacheLengthsExact(prompt, cuts, budget, divide);
    assert forall k :: 0 <= k < |cuts| ==> cuts[k] in cuts;
  }

  /** The rule, told from the cuts and the closed-form lengths: no cut lies inside the prompt, the
      full span's cut clears the ceiling, and so do enough of the scored cuts. */
  lemma PredictedEligibleIff(prompt: nat, cuts: seq<int>, scored: set<nat>, budget: nat, divide: nat, ceiling: real, minScored: int,
                             active: set<nat>)
    requires divide >= 1
    requires forall k :: k in active <==>
               k in scored && k < |cuts| && cuts[k] >= prompt && RetentionRatio(LengthAt(prompt, cuts[k], budget, divide), cuts[k]) <= ceiling
    ensures PredictedEligible(prompt, cuts, scored, budget, divide, ceiling, minScored) <==>
              && (forall pos :: pos in cuts ==> pos >= prompt)
              && |cuts| >= 9 && cuts[8] >= prompt && RetentionRatio(LengthAt(prompt, cuts[8], budget, divide), cuts[8]) <= ceiling
              && |active| >= minScored
  {
    PredictRetentionExact(prompt, cuts, budget, divide);
    var retention := PredictRetention(prompt, cuts, budget, divide);
    hide PredictRetention, RetentionRatio, LengthAt;
    if retention.Ok? {
      assert forall k :: k in MeaningfullyCompressed(retention.value, ceiling) * scored <==> k in active;
      assert MeaningfullyCompressed(retention.value, ceiling) * scored == active;
    }
  }

  /** Nothing is predicted for a run that ends inside the prompt. */
  lemma NothingPredictedInsidePrompt(prompt: nat, maxPosition: int, budget: nat, divide: nat)
    requires divide >= 1
    ensures PredictedEvents(prompt, maxPosition, budget, divide) == [] <==>
              maxPosition < prompt || (prompt <= budget && PeriodicAttempts(Max(prompt, budget), maxPosition, divide) == 0)
  {
    if maxPosition >= prompt {
      PredictedEventsExact(prompt, maxPosition, budget, divide);
      if PeriodicAttempts(Max(prompt, budget), maxPosition, divide) < 0 {
        PredictedEventsOrdered(prompt, maxPosition, budget, divide);
      }
      hide PredictedEvents, PeriodicAttempts;
    }
  }

  /** Predicted retention lies in (0, 1] at every cut, once budget and prompt are positive. */
  lemma RetentionInUnitInterval(prompt: nat, pos: int, budget: nat, divide: nat)
    requires divide >= 1 && prompt >= 1 && pos >= prompt && budget >= 1
    ensures 0.0 < RetentionRatio(LengthAt(prompt, pos, budget, divide), pos) <= 1.0
    ensures RetentionRatio(LengthAt(prompt, pos, budget, divide), pos) == 1.0 <==> LastAttempt(prompt, pos, divide) <= budget
  {
    LengthBounds(prompt, pos, budget, divide);
    var n, d := LengthAt(prompt, pos, budget, divide) as real, pos as real;
    assert 0.0 < n <= d;
    RatioAtMostOne(n, d);
  }

  /** Raising the budget never makes an ineligible candidate eligible. */
  lemma EligibilityAntitoneInBudget(prompt: nat, cuts: seq<int>, scored: set<nat>, small: nat, large: nat,
                                    divide: nat, ceiling: real, minScored: int)
    requires divide >= 1 && small <= large
    requires PredictedEligible(prompt, cuts, scored, large, divide, ceiling, minScored)
    ensures PredictedEligible(prompt, cuts, scored, small, divide, ceiling, minScored)
  {
    PredictRetentionExact(prompt, cuts, small, divide);
    PredictRetentionExact(prompt, cuts, large, divide);
    var atSmall := PredictRetention(prompt, cuts, small, divide).value;
    var atLarge := PredictRetention(prompt, cuts, large, divide).value;
    forall k | 0 <= k < |cuts|
      ensures atSmall[k] <= atLarge[k]
    {
      LengthMonotoneInBudget(prompt, cuts[k], small, large, divide);
      if cuts[k] > 0 {
        DivideMonotone(LengthAt(prompt, cuts[k], small, divide) as real,
                       LengthAt(prompt, cuts[k], large, divide) as real, cuts[k] as real);
      }
    }
    CardinalityMonotone(MeaningfullyCompressed(atLarge, ceiling) * scored,
                        MeaningfullyCompressed(atSmall, ceiling) * scored);
  }

  lemma RatioAtMostOne(n: real, d: real)
    requires 0.0 < n <= d
    ensures 0.0 < n / d <= 1.0
    ensures n / d == 1.0 <==> n == d
  {
    var ratio := n / d;
    assert ratio * d == n;
    assert ratio > 1.0 ==> ratio * d > d;
  }
}

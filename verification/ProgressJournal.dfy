/** A worker's progress journal and its checker
    (src/kvcot/discovery/attempt_verification.py). */
module ProgressJournal {
  import opened Prelude
  import AttemptArtifacts

  type Role = AttemptArtifacts.Worker

  /** The stage names the tables list. `Unlisted` is any other value, a missing one included. */
  datatype Stage =
    | Startup | ConfigValidation | ManifestValidation | SnapshotResolution | TokenizerLoad
    | ModelLoadStart | ModelLoadCompletion | RuntimeVerification
    | Pass1 | Pass2 | CompactTargetConversion | EachRealPair | NoOp
    | ResultConstruction | EnvelopeConstruction
    | BeforeModelLoad | PostLoadBaseline | FailedStage
    | Pass1PlanConstruction | MinimizedTargetEvidence | FullKVNaturalGeneration
    | Unlisted(text: string)

  datatype Status = Started | Completed | Failed | UnknownStatus(text: string)

  /** `Falsy` and `Truthy` are values that are no mapping: asking a truthy one for a key raises. */
  datatype Counters = Mapping(timingPhase: Option<string>) | Falsy | Truthy

  datatype Event = Event(
    timestampParses: bool,
    attemptId: Option<string>,
    workerRole: Option<Role>,
    stage: Stage,
    status: Status,
    counters: Counters)

  // ---------------------------------------------------------------- the tables

  const COMMON_REQUIRED: seq<Stage> :=
    [Startup, ConfigValidation, ManifestValidation, SnapshotResolution, TokenizerLoad, ModelLoadStart,
     ModelLoadCompletion, RuntimeVerification, ResultConstruction, EnvelopeConstruction]

  const RKV_ONLY_REQUIRED: seq<Stage> := [Pass1, Pass2, CompactTargetConversion, EachRealPair, NoOp]

  function RequiredStages(role: Role): seq<Stage> {
    if role.RKV? then COMMON_REQUIRED + RKV_ONLY_REQUIRED else COMMON_REQUIRED
  }

  function OrderedStages(role: Role): seq<Stage> {
    [Startup, ConfigValidation, ManifestValidation, SnapshotResolution, TokenizerLoad, ModelLoadCompletion, RuntimeVerification]
    + (if role.RKV? then [Pass1, Pass2, CompactTargetConversion] else [])
    + [ResultConstruction, EnvelopeConstruction]
  }

  predicate KnownStage(role: Role, stage: Stage) {
    || stage in RequiredStages(role)
    || stage in {BeforeModelLoad, PostLoadBaseline, ModelLoadStart, FailedStage}
    || (role.RKV? && stage in {Pass1PlanConstruction, MinimizedTargetEvidence})
    || (role.FullKV? && stage == FullKVNaturalGeneration)
  }

  const REAL_PAIRS := 12

  // ---------------------------------------------------------------- what a journal should be

  predicate WellFormed(role: Role, attemptId: Option<string>, e: Event) {
    && e.timestampParses
    && (attemptId.Some? ==> e.attemptId == attemptId)
    && e.workerRole == Some(role)
    && KnownStage(role, e.stage)
    && !e.status.UnknownStatus?
    && e.counters.Mapping?
  }

  predicate Is(e: Event, stage: Stage, status: Status) {
    e.stage == stage && e.status == status
  }

  /** `stage` completes at position `k` and nowhere else. */
  ghost predicate CompletesOnlyAt(events: seq<Event>, stage: Stage, k: int) {
    0 <= k < |events| && forall j :: 0 <= j < |events| ==> (Is(events[j], stage, Completed) <==> j == k)
  }

  /** The stages complete once each, in the listed order. */
  ghost predicate CompleteInOrder(events: seq<Event>, ordered: seq<Stage>) {
    exists at: seq<nat> ::
      && |at| == |ordered|
      && (forall i :: 0 <= i < |at| ==> CompletesOnlyAt(events, ordered[i], at[i]))
      && (forall i, j :: 0 <= i < j < |at| ==> at[i] < at[j])
  }

  /** If `opening` ever starts, it has started before `closing` first completes. */
  ghost predicate StartsFirst(events: seq<Event>, opening: Stage, closing: Stage) {
    (exists k :: 0 <= k < |events| && Is(events[k], opening, Started)) ==>
      forall k :: 0 <= k < |events| && Is(events[k], closing, Completed) ==>
        exists j :: 0 <= j < k && Is(events[j], opening, Started)
  }

  /** The timing phases of the completed real pairs, in order. */
  function PairPhases(events: seq<Event>): seq<Option<string>> {
    if events == [] then [] else
      var rest, last := PairPhases(events[..|events| - 1]), events[|events| - 1];
      if Is(last, EachRealPair, Completed)
      then rest + [if last.counters.Mapping? then last.counters.timingPhase else None]
      else rest
  }

  ghost predicate TwelvePairsAndOneNoOp(events: seq<Event>) {
    && |PairPhases(events)| == REAL_PAIRS && Distinct(PairPhases(events)) && None !in PairPhases(events)
    && exists k :: CompletesOnlyAt(events, NoOp, k)
  }

  ghost predicate JournalValid(events: seq<Event>, role: Role, attemptId: Option<string>) {
    && (forall k :: 0 <= k < |events| ==> WellFormed(role, attemptId, events[k]))
    && (forall k :: 0 <= k < |events| ==> events[k].status != Failed && events[k].stage != FailedStage)
    && CompleteInOrder(events, OrderedStages(role))
    && (forall stage :: StartsFirst(events, stage, stage))
    && StartsFirst(events, ModelLoadStart, ModelLoadCompletion)
    && (role.RKV? ==> TwelvePairsAndOneNoOp(events))
  }

  // ---------------------------------------------------------------- positions of a stage

  /** Positions at which `stage` has `status`, in order. */
  function Positions(events: seq<Event>, stage: Stage, status: Status): (at: seq<nat>)
    ensures forall i :: 0 <= i < |at| ==> at[i] < |events| && Is(events[at[i]], stage, status)
    ensures forall i, j :: 0 <= i < j < |at| ==> at[i] < at[j]
  {
    if events == [] then [] else
      var rest := Positions(events[..|events| - 1], stage, status);
      if Is(events[|events| - 1], stage, status) then rest + [|events| - 1] else rest
  }

  lemma {:induction false} PositionsComplete(events: seq<Event>, stage: Stage, status: Status, k: nat)
    requires k < |events| && Is(events[k], stage, status)
    ensures k in Positions(events, stage, status)
  {
    if k < |events| - 1 {
      PositionsComplete(events[..|events| - 1], stage, status, k);
    }
  }

  lemma OnlyPosition(events: seq<Event>, stage: Stage)
    ensures |Positions(events, stage, Completed)| == 1 ==> CompletesOnlyAt(events, stage, Positions(events, stage, Completed)[0])
    ensures forall k :: CompletesOnlyAt(events, stage, k) ==> Positions(events, stage, Completed) == [k]
  {
    var at := Positions(events, stage, Completed);
    forall j | 0 <= j < |events| && Is(events[j], stage, Completed)
      ensures j in at
    {
      PositionsComplete(events, stage, Completed, j);
    }
    assert |at| >= 2 ==> at[0] < at[1];
    forall k | CompletesOnlyAt(events, stage, k)
      ensures at == [k]
    {
      assert k in at;
      assert forall i :: 0 <= i < |at| ==> at[i] == k;
    }
  }

  lemma FirstPosition(events: seq<Event>, stage: Stage, status: Status)
    ensures var at := Positions(events, stage, status);
            forall k :: 0 <= k < |events| && Is(events[k], stage, status) ==> at != [] && at[0] <= k
  {
    var at := Positions(events, stage, status);
    forall k | 0 <= k < |events| && Is(events[k], stage, status)
      ensures at != [] && at[0] <= k
    {
      PositionsComplete(events, stage, status, k);
    }
  }

  /** Comparing first positions, as the code does, decides `StartsFirst`. */
  lemma FirstPositions(events: seq<Event>, opening: Stage, closing: Stage)
    ensures var starts, ends := Positions(events, opening, Started), Positions(events, closing, Completed);
            StartsFirst(events, opening, closing) <==> !(starts != [] && ends != [] && ends[0] < starts[0])
  {
    var starts, ends := Positions(events, opening, Started), Positions(events, closing, Completed);
    FirstPosition(events, opening, Started);
    FirstPosition(events, closing, Completed);
    if starts != [] && ends != [] {
      var s, e := starts[0], ends[0];
      assert Is(events[s], opening, Started) && Is(events[e], closing, Completed);
      hide Positions;
      if e < s {
        assert !StartsFirst(events, opening, closing);
      } else {
        forall k | 0 <= k < |events| && Is(events[k], closing, Completed)
          ensures exists j :: 0 <= j < k && Is(events[j], opening, Started)
        {
          assert s < k;
        }
      }
    }
  }

  // ---------------------------------------------------------------- the checker

  datatype Reason =
    | NoTimestamp(line: nat) | WrongAttempt(line: nat) | WrongRole(line: nat)
    | StageUnknown(line: nat) | StatusUnknown(line: nat) | CountersNotMapping(line: nat)
    | FailureEvent
    | NotOnce(stage: Stage, times: nat)
    | OutOfOrder(stage: Stage)
    | CompletedBeforeStart(stage: Stage)
    | LoadCompletionBeforeStart
    | NotTwelvePairs | NotOneNoOp

  method CheckEvents(events: seq<Event>, role: Role, attemptId: Option<string>) returns (reasons: seq<Reason>)
    ensures reasons == [] <==> forall k :: 0 <= k < |events| ==>
              && events[k].timestampParses && (attemptId.None? || events[k].attemptId == attemptId) && events[k].workerRole == Some(role)
              && KnownStage(role, events[k].stage) && events[k].status in {Started, Completed} && events[k].counters.Mapping?
              && events[k].stage != FailedStage
  {
    reasons := [];
    var failed := false;
    for n := 0 to |events|
      invariant reasons == [] <==> forall k :: 0 <= k < n ==> WellFormed(role, attemptId, events[k])
      invariant failed <==> exists k :: 0 <= k < n && (events[k].status == Failed || events[k].stage == FailedStage)
    {
      var e := events[n];
      if !e.timestampParses { reasons := reasons + [NoTimestamp(n + 1)]; }
      if attemptId.Some? && e.attemptId != attemptId { reasons := reasons + [WrongAttempt(n + 1)]; }
      if e.workerRole != Some(role) { reasons := reasons + [WrongRole(n + 1)]; }
      if !KnownStage(role, e.stage) { reasons := reasons + [StageUnknown(n + 1)]; }
      if e.status.UnknownStatus? { reasons := reasons + [StatusUnknown(n + 1)]; }
      if !e.counters.Mapping? { reasons := reasons + [CountersNotMapping(n + 1)]; }
      if e.status == Failed || e.stage == FailedStage { failed := true; }
    }
    if failed { reasons := reasons + [FailureEvent]; }
  }

  function Lookup(index: map<Stage, seq<nat>>): Stage -> seq<nat> {
    stage => if stage in index then index[stage] else []
  }

  /** An index dictionary: the positions of every stage that has any. */
  ghost predicate Indexes(index: map<Stage, seq<nat>>, events: seq<Event>, status: Status) {
    forall stage :: Lookup(index)(stage) == Positions(events, stage, status) && (stage in index ==> index[stage] != [])
  }

  lemma PositionsSnoc(events: seq<Event>, e: Event, stage: Stage, status: Status)
    ensures Positions(events + [e], stage, status) ==
              if Is(e, stage, status) then Positions(events, stage, status) + [|events|] else Positions(events, stage, status)
  {
    assert (events + [e])[..|events|] == events;
  }

  lemma IndexesSnoc(index: map<Stage, seq<nat>>, events: seq<Event>, e: Event, status: Status)
    requires Indexes(index, events, status)
    ensures e.status != status ==> Indexes(index, events + [e], status)
    ensures e.status == status ==> Indexes(index[e.stage := Lookup(index)(e.stage) + [|events|]], events + [e], status)
  {
    hide Positions;
    var next := index[e.stage := Lookup(index)(e.stage) + [|events|]];
    forall stage
      ensures e.status != status ==> Lookup(index)(stage) == Positions(events + [e], stage, status)
      ensures e.status == status ==> Lookup(next)(stage) == Positions(events + [e], stage, status)
    {
      PositionsSnoc(events, e, stage, status);
    }
  }

  /** The two index dictionaries, and the started stages in the order they were first seen. */
  method IndexEvents(events: seq<Event>)
    returns (completions: map<Stage, seq<nat>>, starts: map<Stage, seq<nat>>, startOrder: seq<Stage>)
    ensures Indexes(completions, events, Completed) && Indexes(starts, events, Started)
    ensures Elements(startOrder) == starts.Keys
  {
    completions, starts, startOrder := map[], map[], [];
    for n := 0 to |events|
      invariant Indexes(completions, events[..n], Completed) && Indexes(starts, events[..n], Started)
      invariant Elements(startOrder) == starts.Keys
    {
      var e := events[n];
      assert events[..n + 1] == events[..n] + [e];
      IndexesSnoc(completions, events[..n], e, Completed);
      IndexesSnoc(starts, events[..n], e, Started);
      if e.status == Completed {
        completions := completions[e.stage := Lookup(completions)(e.stage) + [n]];
      } else if e.status == Started {
        if e.stage !in starts {
          ElementsSnoc(startOrder, e.stage);
          startOrder := startOrder + [e.stage];
        }
        starts := starts[e.stage := Lookup(starts)(e.stage) + [n]];
      }
    }
    assert events[..|events|] == events;
  }

  /** Each of the first `n` stages has one position, each after the one before. */
  predicate OnePositionEachInOrder(ordered: seq<Stage>, at: Stage -> seq<nat>, n: nat)
    requires n <= |ordered|
  {
    && (forall i :: 0 <= i < n ==> |at(ordered[i])| == 1)
    && (forall i :: 0 < i < n ==> at(ordered[i - 1])[0] < at(ordered[i])[0])
  }

  method CheckOrder(ordered: seq<Stage>, completions: map<Stage, seq<nat>>) returns (reasons: seq<Reason>)
    ensures reasons == [] <==> OnePositionEachInOrder(ordered, Lookup(completions), |ordered|)
  {
    reasons := [];
    var previous: int := -1;
    for n := 0 to |ordered|
      invariant reasons == [] <==> OnePositionEachInOrder(ordered, Lookup(completions), n)
      invariant reasons == [] ==> previous == if n == 0 then -1 else Lookup(completions)(ordered[n - 1])[0]
    {
      var indexes := Lookup(completions)(ordered[n]);
      if |indexes| != 1 {
        reasons := reasons + [NotOnce(ordered[n], |indexes|)];
      } else {
        if indexes[0] <= previous { reasons := reasons + [OutOfOrder(ordered[n])]; }
        previous := indexes[0];
      }
    }
  }

  lemma {:induction false} IncreasingThroughout(ordered: seq<Stage>, at: Stage -> seq<nat>, i: nat, j: nat)
    requires OnePositionEachInOrder(ordered, at, |ordered|) && i < j < |ordered|
    ensures at(ordered[i])[0] < at(ordered[j])[0]
  {
    if i < j - 1 {
      IncreasingThroughout(ordered, at, i, j - 1);
    }
  }

  /** Adjacent comparisons decide `CompleteInOrder`, which speaks of all pairs of stages. */
  lemma OrderDecided(events: seq<Event>, ordered: seq<Stage>, completions: map<Stage, seq<nat>>)
    requires Indexes(completions, events, Completed)
    ensures OnePositionEachInOrder(ordered, Lookup(completions), |ordered|) <==> CompleteInOrder(events, ordered)
  {
    var at := Lookup(completions);
    forall i | 0 <= i < |ordered|
      ensures |at(ordered[i])| == 1 ==> CompletesOnlyAt(events, ordered[i], at(ordered[i])[0])
      ensures forall k :: CompletesOnlyAt(events, ordered[i], k) ==> at(ordered[i]) == [k]
    {
      assert at(ordered[i]) == Positions(events, ordered[i], Completed);
      OnlyPosition(events, ordered[i]);
    }
    hide CompletesOnlyAt, Lookup, Positions;
    OrderDecidedBy(events, ordered, at);
  }

  lemma OrderDecidedBy(events: seq<Event>, ordered: seq<Stage>, at: Stage -> seq<nat>)
    requires forall i :: 0 <= i < |ordered| && |at(ordered[i])| == 1 ==> CompletesOnlyAt(events, ordered[i], at(ordered[i])[0])
    requires forall i, k :: 0 <= i < |ordered| && CompletesOnlyAt(events, ordered[i], k) ==> at(ordered[i]) == [k]
    ensures OnePositionEachInOrder(ordered, at, |ordered|) <==> CompleteInOrder(events, ordered)
  {
    hide CompletesOnlyAt;
    if OnePositionEachInOrder(ordered, at, |ordered|) {
      var positions: seq<nat> := seq(|ordered|, i requires 0 <= i < |ordered| => at(ordered[i])[0]);
      forall i, j | 0 <= i < j < |positions|
        ensures positions[i] < positions[j]
      {
        IncreasingThroughout(ordered, at, i, j);
      }
      assert forall i :: 0 <= i < |positions| ==> CompletesOnlyAt(events, ordered[i], positions[i]);
    }
    if CompleteInOrder(events, ordered) {
      var positions: seq<nat> :|
        && |positions| == |ordered|
        && (forall i :: 0 <= i < |positions| ==> CompletesOnlyAt(events, ordered[i], positions[i]))
        && (forall i, j :: 0 <= i < j < |positions| ==> positions[i] < positions[j]);
      assert forall i :: 0 <= i < |ordered| ==> at(ordered[i]) == [positions[i]];
    }
  }

  method CheckStarts(completions: map<Stage, seq<nat>>, starts: map<Stage, seq<nat>>, startOrder: seq<Stage>)
    returns (reasons: seq<Reason>)
    requires forall stage :: stage in completions ==> completions[stage] != []
    requires forall stage :: stage in starts ==> starts[stage] != []
    requires Elements(startOrder) == starts.Keys
    ensures reasons == [] <==>
              && (forall stage :: stage in starts && stage in completions ==> !(completions[stage][0] < starts[stage][0]))
              && (ModelLoadStart in starts && ModelLoadCompletion in completions ==>
                    !(completions[ModelLoadCompletion][0] < starts[ModelLoadStart][0]))
  {
    reasons := [];
    for n := 0 to |startOrder|
      invariant reasons == [] <==> forall i :: 0 <= i < n && startOrder[i] in completions ==>
                                     startOrder[i] in starts && !(completions[startOrder[i]][0] < starts[startOrder[i]][0])
    {
      var stage := startOrder[n];
      assert stage in Elements(startOrder);
      if stage in completions && completions[stage][0] < starts[stage][0] {
        reasons := reasons + [CompletedBeforeStart(stage)];
      }
    }
    assert forall stage :: stage in starts ==> stage in Elements(startOrder);
    if ModelLoadStart in starts && ModelLoadCompletion in completions
       && completions[ModelLoadCompletion][0] < starts[ModelLoadStart][0] {
      reasons := reasons + [LoadCompletionBeforeStart];
    }
  }

  lemma StartsDecided(events: seq<Event>, completions: map<Stage, seq<nat>>, starts: map<Stage, seq<nat>>)
    requires Indexes(completions, events, Completed) && Indexes(starts, events, Started)
    ensures (forall stage :: stage in starts && stage in completions ==> !(completions[stage][0] < starts[stage][0]))
            <==> forall stage :: StartsFirst(events, stage, stage)
    ensures (ModelLoadStart in starts && ModelLoadCompletion in completions ==>
               !(completions[ModelLoadCompletion][0] < starts[ModelLoadStart][0]))
            <==> StartsFirst(events, ModelLoadStart, ModelLoadCompletion)
  {
    forall opening, closing
      ensures StartsFirst(events, opening, closing) <==>
                !(opening in starts && closing in completions && completions[closing][0] < starts[opening][0])
    {
      FirstPositions(events, opening, closing);
    }
  }

  /** The R-KV counts. `None` is the exception raised on counters that are truthy and no mapping. */
  method CheckPairs(events: seq<Event>) returns (reasons: Option<seq<Reason>>)
    ensures reasons.None? <==> exists k :: 0 <= k < |events| && Is(events[k], EachRealPair, Completed) && events[k].counters.Truthy?
    ensures reasons.Some? ==> (reasons.value == [] <==> TwelvePairsAndOneNoOp(events))
  {
    var phases: seq<Option<string>> := [];
    var noOps := [];
    for n := 0 to |events|
      invariant phases == PairPhases(events[..n]) && noOps == Positions(events[..n], NoOp, Completed)
      invariant forall k :: 0 <= k < n && Is(events[k], EachRealPair, Completed) ==> !events[k].counters.Truthy?
    {
      var e := events[n];
      assert events[..n + 1][..n] == events[..n];
      if Is(e, EachRealPair, Completed) {
        if e.counters.Truthy? { return None; }
        phases := phases + [if e.counters.Mapping? then e.counters.timingPhase else None];
      }
      if Is(e, NoOp, Completed) { noOps := noOps + [n]; }
    }
    assert events[..|events|] == events;
    DistinctIffCardinality(phases);
    OnlyPosition(events, NoOp);
    var found := [];
    if |phases| != REAL_PAIRS || |Elements(phases)| != REAL_PAIRS || None in phases { found := found + [NotTwelvePairs]; }
    if |noOps| != 1 { found := found + [NotOneNoOp]; }
    reasons := Some(found);
  }

  /** `_verify_progress_journal`: it raises nothing and reports nothing exactly when the journal is valid. */
  method VerifyProgressJournal(events: seq<Event>, role: Role, attemptId: Option<string>) returns (reasons: Option<seq<Reason>>)
    ensures reasons == Some([]) <==> JournalValid(events, role, attemptId)
    ensures reasons.None? <==>
              role.RKV? && exists k :: 0 <= k < |events| && Is(events[k], EachRealPair, Completed) && events[k].counters.Truthy?
  {
    hide KnownStage, CompleteInOrder, StartsFirst, TwelvePairsAndOneNoOp, OrderedStages;
    var onEvents := CheckEvents(events, role, attemptId);
    var completions, starts, startOrder := IndexEvents(events);
    var onOrder := CheckOrder(OrderedStages(role), completions);
    OrderDecided(events, OrderedStages(role), completions);
    var onStarts := CheckStarts(completions, starts, startOrder);
    StartsDecided(events, completions, starts);
    var sofar := onEvents + onOrder + onStarts;
    if role.FullKV? { return Some(sofar); }
    var onPairs := CheckPairs(events);
    if onPairs.None? { return None; }
    reasons := Some(sofar + onPairs.value);
  }

  // ---------------------------------------------------------------- stage completeness

  ghost predicate Seen(events: seq<Event>, stage: Stage) {
    exists k :: 0 <= k < |events| && Is(events[k], stage, if stage == ModelLoadStart then Started else Completed)
  }

  /** `verify_progress_stage_completeness`: the required stages never seen, in table order. */
  method VerifyProgressStageCompleteness(events: seq<Event>, role: Role) returns (complete: bool, missing: seq<Stage>)
    ensures complete <==> missing == []
    ensures forall stage :: stage in missing <==> stage in RequiredStages(role) && !Seen(events, stage)
  {
    var completed: set<Stage>, started: set<Stage> := {}, {};
    for n := 0 to |events|
      invariant forall stage :: stage in completed <==> exists k :: 0 <= k < n && Is(events[k], stage, Completed)
      invariant forall stage :: stage in started <==> exists k :: 0 <= k < n && Is(events[k], stage, Started)
    {
      if events[n].status == Completed { completed := completed + {events[n].stage}; }
      if events[n].status == Started { started := started + {events[n].stage}; }
    }
    missing := [];
    var required := RequiredStages(role);
    for n := 0 to |required|
      invariant forall stage :: stage in missing <==> stage in required[..n] && !Seen(events, stage)
    {
      var stage := required[n];
      assert required[..n + 1] == required[..n] + [stage];
      if (if stage == ModelLoadStart then stage !in started else stage !in completed) {
        missing := missing + [stage];
      }
    }
    assert required[..|required|] == required;
    complete := missing == [];
  }

  /** A valid journal can lack no required stage but "model-load start": that one is never
      asked for by the journal checker itself. */
  lemma ValidJournalMissesOnlyLoadStart(events: seq<Event>, role: Role, attemptId: Option<string>, stage: Stage)
    requires JournalValid(events, role, attemptId)
    requires stage in RequiredStages(role) && stage != ModelLoadStart
    ensures Seen(events, stage)
  {
    hide CompleteInOrder, StartsFirst, WellFormed;
    if stage == EachRealPair {
      PairWitness(events);
    } else if stage == NoOp {
      var k :| CompletesOnlyAt(events, NoOp, k);
      assert Is(events[k], NoOp, Completed);
    } else {
      assert stage in OrderedStages(role);
      OrderedStageSeen(events, OrderedStages(role), stage);
    }
  }

  lemma OrderedStageSeen(events: seq<Event>, ordered: seq<Stage>, stage: Stage)
    requires CompleteInOrder(events, ordered) && stage in ordered && stage != ModelLoadStart
    ensures Seen(events, stage)
  {
    var at: seq<nat> :| |at| == |ordered| && forall i :: 0 <= i < |at| ==> CompletesOnlyAt(events, ordered[i], at[i]);
    var i :| 0 <= i < |ordered| && ordered[i] == stage;
    assert CompletesOnlyAt(events, ordered[i], at[i]);
    assert Is(events[at[i]], stage, Completed);
  }

  lemma {:induction false} PairWitness(events: seq<Event>)
    requires PairPhases(events) != []
    ensures Seen(events, EachRealPair)
  {
    var last := events[|events| - 1];
    if Is(last, EachRealPair, Completed) {
      assert Is(events[|events| - 1], EachRealPair, Completed);
    } else {
      PairWitness(events[..|events| - 1]);
      var k :| 0 <= k < |events| - 1 && Is(events[..|events| - 1][k], EachRealPair, Completed);
      assert Is(events[k], EachRealPair, Completed);
    }
  }

  /** So on a valid journal the completeness check adds exactly one demand: that a model-load
      start is on record. */
  lemma CompletenessAddsLoadStart(events: seq<Event>, role: Role, attemptId: Option<string>)
    requires JournalValid(events, role, attemptId)
    ensures (forall stage :: stage in RequiredStages(role) ==> Seen(events, stage)) <==> Seen(events, ModelLoadStart)
  {
    if Seen(events, ModelLoadStart) {
      forall stage | stage in RequiredStages(role)
        ensures Seen(events, stage)
      {
        if stage != ModelLoadStart {
          ValidJournalMissesOnlyLoadStart(events, role, attemptId, stage);
        }
      }
    }
    assert RequiredStages(role)[5] == ModelLoadStart;
  }

  // ---------------------------------------------------------------- what a valid journal says

  /** Both stages complete exactly once, this one first. */
  ghost predicate CompletesBefore(events: seq<Event>, first: Stage, second: Stage) {
    exists i, j :: i < j && CompletesOnlyAt(events, first, i) && CompletesOnlyAt(events, second, j)
  }

  /** The order of a worker's life: it starts, validates, resolves and loads; an R-KV worker runs its
      two passes and converts their targets; then the result and its envelope are built. */
  lemma ValidJournalRunsInOrder(events: seq<Event>, role: Role, attemptId: Option<string>)
    requires JournalValid(events, role, attemptId)
    ensures CompletesBefore(events, Startup, ConfigValidation) && CompletesBefore(events, ConfigValidation, ManifestValidation)
    ensures CompletesBefore(events, ManifestValidation, SnapshotResolution) && CompletesBefore(events, SnapshotResolution, TokenizerLoad)
    ensures CompletesBefore(events, TokenizerLoad, ModelLoadCompletion) && CompletesBefore(events, ModelLoadCompletion, RuntimeVerification)
    ensures CompletesBefore(events, RuntimeVerification, ResultConstruction) && CompletesBefore(events, ResultConstruction, EnvelopeConstruction)
    ensures role.RKV? ==>
              && CompletesBefore(events, RuntimeVerification, Pass1) && CompletesBefore(events, Pass1, Pass2)
              && CompletesBefore(events, Pass2, CompactTargetConversion) && CompletesBefore(events, CompactTargetConversion, ResultConstruction)
  {
    var ordered := OrderedStages(role);
    hide CompleteInOrder, CompletesBefore, StartsFirst, WellFormed;
    InTurn(events, ordered, 0, 1);
    InTurn(events, ordered, 1, 2);
    InTurn(events, ordered, 2, 3);
    InTurn(events, ordered, 3, 4);
    InTurn(events, ordered, 4, 5);
    InTurn(events, ordered, 5, 6);
    var n := |ordered|;
    InTurn(events, ordered, 6, n - 2);
    InTurn(events, ordered, n - 2, n - 1);
    if role.RKV? {
      InTurn(events, ordered, 6, 7);
      InTurn(events, ordered, 7, 8);
      InTurn(events, ordered, 8, 9);
      InTurn(events, ordered, 9, 10);
    }
  }

  lemma InTurn(events: seq<Event>, ordered: seq<Stage>, i: nat, j: nat)
    requires CompleteInOrder(events, ordered) && i < j < |ordered|
    ensures CompletesBefore(events, ordered[i], ordered[j])
  {
    var at: seq<nat> :|
      && |at| == |ordered|
      && (forall i :: 0 <= i < |at| ==> CompletesOnlyAt(events, ordered[i], at[i]))
      && (forall i, j :: 0 <= i < j < |at| ==> at[i] < at[j]);
    assert at[i] < at[j];
  }

  /** A stage that starts has started before it first completes, and so has the model load, whose
      start and completion are stages of their own. */
  lemma ValidJournalStartsFirst(events: seq<Event>, role: Role, attemptId: Option<string>, opening: Stage, closing: Stage, s: nat, k: nat)
    requires JournalValid(events, role, attemptId) && s < |events| && k < |events|
    requires opening == closing || (opening == ModelLoadStart && closing == ModelLoadCompletion)
    requires events[s].stage == opening && events[s].status == Started
    requires events[k].stage == closing && events[k].status == Completed
    ensures exists j :: 0 <= j < k && events[j].stage == opening && events[j].status == Started
  {
    hide CompleteInOrder, WellFormed;
    assert StartsFirst(events, opening, closing);
    assert Is(events[s], opening, Started) && Is(events[k], closing, Completed);
    var j :| 0 <= j < k && Is(events[j], opening, Started);
  }

  /** Which stages a role may report: all but those of the other role, and strays. */
  lemma KnownStages(role: Role, stage: Stage)
    ensures !KnownStage(role, stage) <==>
              || stage.Unlisted?
              || (role.RKV? && stage == FullKVNaturalGeneration)
              || (role.FullKV? && stage in {Pass1, Pass2, CompactTargetConversion, EachRealPair, NoOp, Pass1PlanConstruction, MinimizedTargetEvidence})
  {
    RequiredAre(role, stage);
    hide RequiredStages;
  }

  lemma RequiredAre(role: Role, stage: Stage)
    ensures stage in RequiredStages(role) <==> stage in COMMON_REQUIRED || (role.RKV? && stage in RKV_ONLY_REQUIRED)
    ensures stage in COMMON_REQUIRED <==>
              || stage.Startup? || stage.ConfigValidation? || stage.ManifestValidation? || stage.SnapshotResolution? || stage.TokenizerLoad?
              || stage.ModelLoadStart? || stage.ModelLoadCompletion? || stage.RuntimeVerification?
              || stage.ResultConstruction? || stage.EnvelopeConstruction?
    ensures stage in RKV_ONLY_REQUIRED <==>
              stage.Pass1? || stage.Pass2? || stage.CompactTargetConversion? || stage.EachRealPair? || stage.NoOp?
  {
    CommonAre(stage);
  }

  lemma CommonAre(stage: Stage)
    ensures stage in COMMON_REQUIRED <==>
              || stage.Startup? || stage.ConfigValidation? || stage.ManifestValidation? || stage.SnapshotResolution? || stage.TokenizerLoad?
              || stage.ModelLoadStart? || stage.ModelLoadCompletion? || stage.RuntimeVerification?
              || stage.ResultConstruction? || stage.EnvelopeConstruction?
  {
  }

  /** The required stages are the ordered ones, the model-load start, and the R-KV worker's pairs. */
  lemma RequiredAreOrdered(role: Role, stage: Stage)
    ensures stage in RequiredStages(role) <==>
              stage in OrderedStages(role) || stage == ModelLoadStart || (role.RKV? && stage in {EachRealPair, NoOp})
  {
    assert COMMON_REQUIRED[5] == ModelLoadStart && RKV_ONLY_REQUIRED[3] == EachRealPair && RKV_ONLY_REQUIRED[4] == NoOp;
  }

  /** What every event of a valid journal carries. */
  lemma ValidEvents(events: seq<Event>, role: Role, attemptId: Option<string>, k: nat)
    requires JournalValid(events, role, attemptId) && k < |events|
    ensures events[k].timestampParses && (attemptId.Some? ==> events[k].attemptId == attemptId) && events[k].workerRole == Some(role)
    ensures KnownStage(role, events[k].stage) && events[k].stage != FailedStage && events[k].status in {Started, Completed}
    ensures events[k].counters.Mapping?
  {
    assert WellFormed(role, attemptId, events[k]);
  }

  /** The completed real pairs, place by place. */
  lemma {:induction false} PairPhasesAre(events: seq<Event>) returns (at: seq<nat>)
    ensures |at| == |PairPhases(events)|
    ensures forall i, j :: 0 <= i < j < |at| ==> at[i] < at[j]
    ensures forall i :: 0 <= i < |at| ==>
              && at[i] < |events| && events[at[i]].stage == EachRealPair && events[at[i]].status == Completed
              && PairPhases(events)[i] == (if events[at[i]].counters.Mapping? then events[at[i]].counters.timingPhase else None)
    ensures forall k :: 0 <= k < |events| && events[k].stage == EachRealPair && events[k].status == Completed ==> k in at
  {
    at := [];
    if events != [] {
      var n := |events| - 1;
      at := PairPhasesAre(events[..n]);
      if events[n].stage == EachRealPair && events[n].status == Completed {
        at := at + [n];
      }
      forall k | 0 <= k < |events| && events[k].stage == EachRealPair && events[k].status == Completed
        ensures k in at
      {
        if k < n {
          assert events[..n][k] == events[k];
        }
      }
    }
  }

  /** A valid R-KV journal completes twelve real pairs, each under a timing phase of its own, and the
      no-op once. */
  lemma ValidJournalPairs(events: seq<Event>, attemptId: Option<string>) returns (pairs: seq<nat>, noOp: nat)
    requires JournalValid(events, AttemptArtifacts.RKV, attemptId)
    ensures |pairs| == 12
    ensures forall k :: 0 <= k < |events| ==> (k in pairs <==> events[k].stage == EachRealPair && events[k].status == Completed)
    ensures forall i, j :: 0 <= i < j < 12 ==> pairs[i] < pairs[j] < |events|
    ensures forall i :: 0 <= i < 12 ==> pairs[i] < |events| && events[pairs[i]].counters.Mapping? && events[pairs[i]].counters.timingPhase.Some?
    ensures forall i, j :: 0 <= i < j < 12 ==> events[pairs[i]].counters.timingPhase != events[pairs[j]].counters.timingPhase
    ensures forall k :: 0 <= k < |events| ==> (events[k].stage == NoOp && events[k].status == Completed <==> k == noOp)
  {
    hide CompleteInOrder, StartsFirst, PairPhases;
    pairs := PairPhasesAre(events);
    var phases := PairPhases(events);
    forall i | 0 <= i < |pairs|
      ensures events[pairs[i]].counters.Mapping? && phases[i] == events[pairs[i]].counters.timingPhase && phases[i].Some?
    {
      ValidEvents(events, AttemptArtifacts.RKV, attemptId, pairs[i]);
      assert phases[i] in phases;
    }
    var k :| CompletesOnlyAt(events, NoOp, k);
    noOp := k;
  }
}

/** The synchronized timer and what the coordinator adds up from its records
    (src/kvcot/discovery/execution_measurement.py, src/kvcot/discovery/b2a_execute.py). */
module Timer {
  import opened Prelude

  /** A `measure` call as it happened: the calls its operation made, and how it ended. */
  datatype Call = Call(phase: string, body: seq<Call>, completed: bool)

  datatype Record = Record(phase: string, start: real, end: real, completed: bool) {
    function Duration(): real { end - start }
  }

  /** The n-th reading of the clock. */
  type Clock = nat -> real

  ghost predicate Monotone(clock: Clock) {
    forall i: nat, j: nat :: i <= j ==> clock(i) <= clock(j)
  }

  // ---------------------------------------------------------------- what the calls record

  /** How many readings have been taken once the calls are over. */
  function After(calls: seq<Call>, reading: nat): nat {
    if calls == [] then reading else After(calls[1..], AfterCall(calls[0], reading))
  }

  function AfterCall(call: Call, reading: nat): nat {
    After(call.body, reading + 1) + 1
  }

  /** A record, unless the clock ran backwards: then an exception and nothing recorded. */
  function Recorded(clock: Clock, phase: string, start: nat, end: nat, completed: bool): seq<Record> {
    if clock(end) < clock(start) then [] else [Record(phase, clock(start), clock(end), completed)]
  }

  function RecordsOf(clock: Clock, calls: seq<Call>, reading: nat): seq<Record> {
    if calls == [] then []
    else RecordsOfCall(clock, calls[0], reading) + RecordsOf(clock, calls[1..], AfterCall(calls[0], reading))
  }

  function RecordsOfCall(clock: Clock, call: Call, reading: nat): seq<Record> {
    RecordsOf(clock, call.body, reading + 1)
    + Recorded(clock, call.phase, reading, After(call.body, reading + 1), call.completed)
  }

  // ---------------------------------------------------------------- the code

  datatype Ending = Returned | OperationFailed | InvalidTiming

  class SynchronizedTimer {
    const clock: Clock
    var reading: nat
    var records: seq<Record>

    constructor (clock: Clock)
      ensures this.clock == clock && reading == 0 && records == []
    {
      this.clock := clock;
      reading, records := 0, [];
    }

    method Tick() returns (time: real)
      modifies this`reading
      ensures time == clock(old(reading)) && reading == old(reading) + 1
    {
      time := clock(reading);
      reading := reading + 1;
    }

    /** `_record`. */
    method Keep(phase: string, start: real, end: real, completed: bool) returns (valid: bool)
      modifies this`records
      ensures valid == (start <= end)
      ensures records == old(records) + if start <= end then [Record(phase, start, end, completed)] else []
    {
      valid := end - start >= 0.0;
      if valid { records := records + [Record(phase, start, end, completed)]; }
    }

    method Measure(call: Call) returns (ending: Ending)
      modifies this
      ensures reading == AfterCall(call, old(reading))
      ensures records == old(records) + RecordsOfCall(clock, call, old(reading))
      ensures ending.InvalidTiming? <==> clock(reading - 1) < clock(old(reading))
      ensures ending.Returned? <==> call.completed && !ending.InvalidTiming?
      decreases call
    {
      var start := Tick();
      Perform(call.body);
      var end := Tick();
      var valid := Keep(call.phase, start, end, call.completed);
      ending := if !valid then InvalidTiming else if call.completed then Returned else OperationFailed;
    }

    /** An operation making its measured calls, one after the other. */
    method Perform(calls: seq<Call>)
      modifies this
      ensures reading == After(calls, old(reading))
      ensures records == old(records) + RecordsOf(clock, calls, old(reading))
      decreases calls
    {
      ghost var start, was := reading, records;
      for n := 0 to |calls|
        invariant After(calls, start) == After(calls[n..], reading)
        invariant was + RecordsOf(clock, calls, start) == records + RecordsOf(clock, calls[n..], reading)
      {
        assert calls[n..][0] == calls[n] && calls[n..][1..] == calls[n + 1..];
        var ignored := Measure(calls[n]);
      }
    }

    /** A worker: `begin_span`, its measured calls, `finish_span`. */
    method Worker(phase: string, calls: seq<Call>) returns (valid: bool)
      modifies this
      ensures reading == AfterCall(Call(phase, calls, true), old(reading))
      ensures records == old(records) + RecordsOfCall(clock, Call(phase, calls, true), old(reading))
    {
      var start := Tick();
      Perform(calls);
      var end := Tick();
      valid := Keep(phase, start, end, true);
    }
  }

  // ---------------------------------------------------------------- laminarity

  predicate Disjoint(earlier: Record, later: Record) {
    earlier.end <= later.start
  }

  predicate NestedIn(inner: Record, outer: Record) {
    outer.start <= inner.start && inner.end <= outer.end
  }

  /** Phases in post-order: a call comes after every call made inside it. */
  function PostOrder(calls: seq<Call>): seq<string> {
    if calls == [] then [] else PostOrder(calls[0].body) + [calls[0].phase] + PostOrder(calls[1..])
  }

  function Phases(records: seq<Record>): seq<string> {
    seq(|records|, i requires 0 <= i < |records| => records[i].phase)
  }

  lemma {:induction false} AfterGrows(calls: seq<Call>, reading: nat)
    ensures reading <= After(calls, reading)
    decreases calls
  {
    if calls != [] {
      AfterGrows(calls[0].body, reading + 1);
      AfterGrows(calls[1..], AfterCall(calls[0], reading));
    }
  }

  /** Under a monotone clock no call is lost, and records come in post-order. */
  lemma {:induction false} RecordsInPostOrder(clock: Clock, calls: seq<Call>, reading: nat)
    requires Monotone(clock)
    ensures Phases(RecordsOf(clock, calls, reading)) == PostOrder(calls)
    decreases calls
  {
    if calls != [] {
      CallRecordsInPostOrder(clock, calls[0], reading);
      RecordsInPostOrder(clock, calls[1..], AfterCall(calls[0], reading));
      hide RecordsOfCall, Phases;
      PhasesConcat(RecordsOfCall(clock, calls[0], reading), RecordsOf(clock, calls[1..], AfterCall(calls[0], reading)));
    }
  }

  lemma {:induction false} CallRecordsInPostOrder(clock: Clock, call: Call, reading: nat)
    requires Monotone(clock)
    ensures Phases(RecordsOfCall(clock, call, reading)) == PostOrder(call.body) + [call.phase]
    decreases call
  {
    hide RecordsOf, RecordsOfCall;
    RecordsInPostOrder(clock, call.body, reading + 1);
    OwnRecordLast(clock, call, reading);
    var own := [Record(call.phase, clock(reading), clock(After(call.body, reading + 1)), call.completed)];
    PhasesConcat(RecordsOf(clock, call.body, reading + 1), own);
    assert Phases(own) == [call.phase];
  }

  lemma PhasesConcat(a: seq<Record>, b: seq<Record>)
    ensures Phases(a + b) == Phases(a) + Phases(b)
  {
  }

  lemma OwnRecordLast(clock: Clock, call: Call, reading: nat)
    requires Monotone(clock)
    ensures RecordsOfCall(clock, call, reading) == RecordsOf(clock, call.body, reading + 1) + [
              Record(call.phase, clock(reading), clock(After(call.body, reading + 1)), call.completed)]
    ensures clock(reading) <= clock(reading + 1) <= clock(After(call.body, reading + 1)) <= clock(AfterCall(call, reading))
  {
    AfterGrows(call.body, reading + 1);
  }

  /** Every record lies between the readings around the calls. */
  lemma {:induction false} RecordsWithin(clock: Clock, calls: seq<Call>, reading: nat, r: Record)
    requires Monotone(clock) && r in RecordsOf(clock, calls, reading)
    ensures clock(reading) <= r.start <= r.end <= clock(After(calls, reading))
    decreases calls
  {
    var call, next := calls[0], AfterCall(calls[0], reading);
    AfterGrows(call.body, reading + 1);
    AfterGrows(calls[1..], next);
    if r in RecordsOf(clock, calls[1..], next) {
      RecordsWithin(clock, calls[1..], next, r);
    } else if r in RecordsOf(clock, call.body, reading + 1) {
      RecordsWithin(clock, call.body, reading + 1, r);
    }
  }

  /** Any two records are disjoint or nested, the later one being the outer. */
  lemma {:induction false} RecordsAreLaminar(clock: Clock, calls: seq<Call>, reading: nat, i: nat, j: nat)
    requires Monotone(clock) && i < j < |RecordsOf(clock, calls, reading)|
    ensures var records := RecordsOf(clock, calls, reading);
            Disjoint(records[i], records[j]) || NestedIn(records[i], records[j])
    decreases calls
  {
    var call, next := calls[0], AfterCall(calls[0], reading);
    var inner, first, rest := RecordsOf(clock, call.body, reading + 1), RecordsOfCall(clock, call, reading), RecordsOf(clock, calls[1..], next);
    AfterGrows(call.body, reading + 1);
    assert |first| == |inner| + 1;
    if i >= |first| {
      RecordsAreLaminar(clock, calls[1..], next, i - |first|, j - |first|);
    } else {
      if i < |inner| { RecordsWithin(clock, call.body, reading + 1, inner[i]); }
      if j >= |first| {
        RecordsWithin(clock, calls[1..], next, rest[j - |first|]);
      } else if j < |inner| {
        RecordsAreLaminar(clock, call.body, reading + 1, i, j);
      }
    }
  }

  // ---------------------------------------------------------------- adding phases up

  /** A completed record's duration, if its phase is among those asked for. */
  function Counted(phases: set<string>): Record -> real {
    (r: Record) => if r.phase in phases && r.completed then r.Duration() else 0.0
  }

  /** The call's record is among those added up. */
  predicate Counts(call: Call, phases: set<string>) { call.completed && call.phase in phases }

  /** No record of these calls, or of calls made inside them, is added up. */
  predicate NoneCounted(calls: seq<Call>, phases: set<string>) {
    calls == [] || (!Counts(calls[0], phases) && NoneCounted(calls[0].body, phases) && NoneCounted(calls[1..], phases))
  }

  /** No stretch of time is added up twice: no counted call lies inside another. */
  predicate NoDouble(calls: seq<Call>, phases: set<string>) {
    calls == [] || (NoDoubleIn(calls[0], phases) && NoDouble(calls[1..], phases))
  }

  predicate NoDoubleIn(call: Call, phases: set<string>) {
    if Counts(call, phases) then NoneCounted(call.body, phases) else NoDouble(call.body, phases)
  }

  /** What is added up of some calls. */
  function Total(clock: Clock, calls: seq<Call>, reading: nat, phases: set<string>): real {
    SumOf(RecordsOf(clock, calls, reading), Counted(phases))
  }

  /** What is added up of a call itself. */
  function OwnShare(clock: Clock, call: Call, reading: nat, phases: set<string>): real {
    if Counts(call, phases) then clock(After(call.body, reading + 1)) - clock(reading) else 0.0
  }

  lemma TotalSplits(clock: Clock, calls: seq<Call>, reading: nat, phases: set<string>)
    requires Monotone(clock) && calls != []
    ensures Total(clock, calls, reading, phases) ==
              Total(clock, calls[0].body, reading + 1, phases) + OwnShare(clock, calls[0], reading, phases)
              + Total(clock, calls[1..], AfterCall(calls[0], reading), phases)
  {
    SumOfConcat(RecordsOfCall(clock, calls[0], reading), RecordsOf(clock, calls[1..], AfterCall(calls[0], reading)), Counted(phases));
    CallTotal(clock, calls[0], reading, phases);
  }

  lemma CallTotal(clock: Clock, call: Call, reading: nat, phases: set<string>)
    requires Monotone(clock)
    ensures SumOf(RecordsOfCall(clock, call, reading), Counted(phases)) ==
              Total(clock, call.body, reading + 1, phases) + OwnShare(clock, call, reading, phases)
  {
    OwnRecordLast(clock, call, reading);
    hide RecordsOf, RecordsOfCall, After, SumOf;
    SumOfSnoc(RecordsOf(clock, call.body, reading + 1),
              Record(call.phase, clock(reading), clock(After(call.body, reading + 1)), call.completed), Counted(phases));
  }

  lemma {:induction false} NoneCountedAddNothing(clock: Clock, calls: seq<Call>, reading: nat, phases: set<string>)
    requires Monotone(clock) && NoneCounted(calls, phases)
    ensures Total(clock, calls, reading, phases) == 0.0
    decreases calls
  {
    if calls != [] {
      NoneCountedAddNothing(clock, calls[0].body, reading + 1, phases);
      NoneCountedAddNothing(clock, calls[1..], AfterCall(calls[0], reading), phases);
      TotalSplits(clock, calls, reading, phases);
      hide Total, After, AfterCall;
    }
  }

  /** Without double counting, what is added up is at most the span. */
  lemma {:induction false} PhasesFitInSpan(clock: Clock, calls: seq<Call>, reading: nat, phases: set<string>)
    requires Monotone(clock) && NoDouble(calls, phases)
    ensures Total(clock, calls, reading, phases) <= clock(After(calls, reading)) - clock(reading)
    decreases calls
  {
    if calls != [] {
      var call := calls[0];
      if Counts(call, phases) {
        NoneCountedAddNothing(clock, call.body, reading + 1, phases);
      } else {
        PhasesFitInSpan(clock, call.body, reading + 1, phases);
      }
      PhasesFitInSpan(clock, calls[1..], AfterCall(call, reading), phases);
      TotalSplits(clock, calls, reading, phases);
      OwnRecordLast(clock, call, reading);
      hide Total, AfterCall, NoDouble, NoneCounted, RecordsOf, RecordsOfCall;
    }
  }

  // ---------------------------------------------------------------- and only then

  /** A clock that stands still but for one jump, right after one of its readings. */
  function Step(at: nat): Clock { n => if n <= at then 0.0 else 1.0 }

  lemma StepIsMonotone(at: nat)
    ensures Monotone(Step(at))
  {
  }

  lemma {:induction false} TotalNonnegative(clock: Clock, calls: seq<Call>, reading: nat, phases: set<string>)
    requires Monotone(clock)
    ensures Total(clock, calls, reading, phases) >= 0.0
    decreases calls
  {
    if calls != [] {
      TotalNonnegative(clock, calls[0].body, reading + 1, phases);
      TotalNonnegative(clock, calls[1..], AfterCall(calls[0], reading), phases);
      TotalSplits(clock, calls, reading, phases);
      OwnRecordLast(clock, calls[0], reading);
      hide Total, AfterCall, RecordsOf, RecordsOfCall;
    }
  }

  lemma AfterFirst(calls: seq<Call>, reading: nat)
    requires calls != []
    ensures reading < After(calls[0].body, reading + 1) < AfterCall(calls[0], reading) <= After(calls, reading)
    ensures After(calls, reading) == After(calls[1..], AfterCall(calls[0], reading))
  {
    AfterGrows(calls[0].body, reading + 1);
    AfterGrows(calls[1..], AfterCall(calls[0], reading));
  }

  /** A reading at which a jump of the clock is counted at least once. */
  lemma {:induction false} CountedOnce(calls: seq<Call>, reading: nat, phases: set<string>) returns (at: nat)
    requires !NoneCounted(calls, phases)
    ensures reading <= at < After(calls, reading) && Total(Step(at), calls, reading, phases) >= 1.0
    decreases calls
  {
    var call, next := calls[0], AfterCall(calls[0], reading);
    AfterFirst(calls, reading);
    if Counts(call, phases) {
      at := reading;
    } else if !NoneCounted(call.body, phases) {
      at := CountedOnce(call.body, reading + 1, phases);
    } else {
      at := CountedOnce(calls[1..], next, phases);
    }
    hide NoneCounted, Total, RecordsOf, RecordsOfCall, After, AfterCall, OwnShare;
    SharesAt(at, calls, reading, phases);
  }

  /** A reading at which a jump of the clock is counted twice. */
  lemma {:induction false} CountedTwice(calls: seq<Call>, reading: nat, phases: set<string>) returns (at: nat)
    requires !NoDouble(calls, phases)
    ensures reading <= at < After(calls, reading) && Total(Step(at), calls, reading, phases) >= 2.0
    decreases calls
  {
    var call, next := calls[0], AfterCall(calls[0], reading);
    AfterFirst(calls, reading);
    if NoDoubleIn(call, phases) {
      at := CountedTwice(calls[1..], next, phases);
    } else if Counts(call, phases) {
      at := CountedOnce(call.body, reading + 1, phases);
    } else {
      at := CountedTwice(call.body, reading + 1, phases);
    }
    hide NoDouble, NoneCounted, Total, RecordsOf, RecordsOfCall, After, AfterCall, OwnShare;
    SharesAt(at, calls, reading, phases);
  }

  /** All shares of a stepping clock are nonnegative, and a counted call around the step has one. */
  lemma SharesAt(at: nat, calls: seq<Call>, reading: nat, phases: set<string>)
    requires calls != []
    ensures Total(Step(at), calls, reading, phases) ==
              Total(Step(at), calls[0].body, reading + 1, phases) + OwnShare(Step(at), calls[0], reading, phases)
              + Total(Step(at), calls[1..], AfterCall(calls[0], reading), phases)
    ensures Total(Step(at), calls[0].body, reading + 1, phases) >= 0.0
    ensures Total(Step(at), calls[1..], AfterCall(calls[0], reading), phases) >= 0.0
    ensures OwnShare(Step(at), calls[0], reading, phases) >= 0.0
    ensures Counts(calls[0], phases) && reading <= at < After(calls[0].body, reading + 1) ==>
              OwnShare(Step(at), calls[0], reading, phases) == 1.0
  {
    StepIsMonotone(at);
    TotalSplits(Step(at), calls, reading, phases);
    TotalNonnegative(Step(at), calls[0].body, reading + 1, phases);
    TotalNonnegative(Step(at), calls[1..], AfterCall(calls[0], reading), phases);
    AfterGrows(calls[0].body, reading + 1);
    hide Total, After, AfterCall;
  }

  /** Under every monotone clock the total fits in the span, exactly when nothing is counted twice. */
  lemma TotalFitsIff(calls: seq<Call>, reading: nat, phases: set<string>)
    ensures (forall clock: Clock :: Monotone(clock) ==> Total(clock, calls, reading, phases) <= clock(After(calls, reading)) - clock(reading))
            <==> NoDouble(calls, phases)
  {
    hide Total, After;
    if NoDouble(calls, phases) {
      forall clock: Clock | Monotone(clock)
        ensures Total(clock, calls, reading, phases) <= clock(After(calls, reading)) - clock(reading)
      {
        PhasesFitInSpan(clock, calls, reading, phases);
      }
    } else {
      var at := CountedTwice(calls, reading, phases);
      StepIsMonotone(at);
    }
  }

  // ---------------------------------------------------------------- the coordinator's setup total

  datatype Refusal = MissingOrDuplicated(phase: string) | NotPositive(phase: string)

  /** The completed records of one phase. */
  function Matches(records: seq<Record>, phase: string): seq<Record> {
    if records == [] then [] else
      var rest, last := Matches(records[..|records| - 1], phase), records[|records| - 1];
      if last.phase == phase && last.completed then rest + [last] else rest
  }

  /** `required_phase_seconds`. */
  function RequiredPhaseSeconds(records: seq<Record>, phase: string): Result<real, Refusal> {
    var matches := Matches(records, phase);
    if |matches| != 1 then Err(MissingOrDuplicated(phase))
    else if matches[0].Duration() <= 0.0 then Err(NotPositive(phase))
    else Ok(matches[0].Duration())
  }

  function Completes(phase: string): Record -> bool { (r: Record) => r.phase == phase && r.completed }

  /** The phase's time is that of its one completed record: none, several or an empty one are refused. */
  lemma RequiredPhaseSecondsIff(records: seq<Record>, phase: string)
    ensures RequiredPhaseSeconds(records, phase).Ok? <==>
              exists k :: OnlyAt(records, Completes(phase), k) && records[k].end > records[k].start
    ensures forall k :: OnlyAt(records, Completes(phase), k) ==>
              RequiredPhaseSeconds(records, phase) ==
                if records[k].end > records[k].start then Ok(records[k].end - records[k].start) else Err(NotPositive(phase))
    ensures RequiredPhaseSeconds(records, phase) == Err(MissingOrDuplicated(phase)) <==> !exists k :: OnlyAt(records, Completes(phase), k)
  {
    MatchesAreFiltered(records, phase);
    FilterIsOneIff(records, Completes(phase));
    hide Filter, Matches, OnlyAt;
  }

  lemma {:induction false} MatchesAreFiltered(records: seq<Record>, phase: string)
    ensures Matches(records, phase) == Filter(records, Completes(phase))
  {
    if records != [] {
      MatchesAreFiltered(records[..|records| - 1], phase);
    }
  }

  /** The one-time setup phases of a worker. */
  function SetupPhases(role: string): seq<string> {
    [role + "_worker_startup", "snapshot_tokenizer_resolution", "tokenizer_load", "model_load", "post_load_validation"]
  }

  /** No setup phase is listed twice, whatever the role is called. */
  lemma SetupPhasesDistinct(role: string)
    ensures Distinct(SetupPhases(role))
  {
    var phases := SetupPhases(role);
    assert phases[0][|phases[0]| - 1] == 'p';
    assert forall i :: 1 <= i < 5 ==> phases[i][|phases[i]| - 1] != 'p';
    assert |phases[1]| == 29 && |phases[2]| == 14 && |phases[3]| == 10 && |phases[4]| == 20;
  }

  /** `_startup_and_load_seconds`, over any list of phases: the first refusal ends the sum. */
  method PhaseSeconds(records: seq<Record>, phases: seq<string>) returns (total: Result<real, Refusal>)
    requires Distinct(phases)
    ensures total.Ok? <==> forall i :: 0 <= i < |phases| ==> RequiredPhaseSeconds(records, phases[i]).Ok?
    ensures total.Ok? ==> total.value == SumOf(records, Counted(Elements(phases)))
    ensures total.Ok? && phases != [] ==> total.value > 0.0
    ensures total.Err? ==> exists i :: 0 <= i < |phases| && RequiredPhaseSeconds(records, phases[i]) == total
  {
    var sum := 0.0;
    NothingCounted(records);
    assert phases[..0] == [] && Elements(phases[..0]) == {};
    for n := 0 to |phases|
      invariant forall i :: 0 <= i < n ==> RequiredPhaseSeconds(records, phases[i]).Ok?
      invariant sum == SumOf(records, Counted(Elements(phases[..n])))
      invariant sum >= 0.0 && (n > 0 ==> sum > 0.0)
    {
      var seconds := RequiredPhaseSeconds(records, phases[n]);
      if seconds.Err? { return seconds; }
      OnePhaseMore(records, phases, n);
      sum := sum + seconds.value;
    }
    assert phases[..|phases|] == phases;
    total := Ok(sum);
  }

  lemma OnePhaseMore(records: seq<Record>, phases: seq<string>, n: nat)
    requires Distinct(phases) && n < |phases| && RequiredPhaseSeconds(records, phases[n]).Ok?
    ensures SumOf(records, Counted(Elements(phases[..n + 1]))) ==
              SumOf(records, Counted(Elements(phases[..n]))) + RequiredPhaseSeconds(records, phases[n]).value
  {
    assert phases[..n + 1] == phases[..n] + [phases[n]];
    ElementsSnoc(phases[..n], phases[n]);
    SumOfOnePhaseMore(records, Elements(phases[..n]), phases[n]);
    MatchesAddUp(records, phases[n]);
    var matches := Matches(records, phases[n]);
    assert matches == [matches[0]];
    SumOfSnoc([], matches[0], DurationOf());
  }

  function DurationOf(): Record -> real { (r: Record) => r.Duration() }

  lemma {:induction false} NothingCounted(records: seq<Record>)
    ensures SumOf(records, Counted({})) == 0.0
  {
    if records != [] {
      NothingCounted(records[..|records| - 1]);
    }
  }

  lemma {:induction false} MatchesAddUp(records: seq<Record>, phase: string)
    ensures SumOf(records, Counted({phase})) == SumOf(Matches(records, phase), DurationOf())
  {
    if records != [] {
      var rest, last := records[..|records| - 1], records[|records| - 1];
      MatchesAddUp(rest, phase);
      SumOfSnoc(Matches(rest, phase), last, DurationOf());
    }
  }

  lemma {:induction false} SumOfOnePhaseMore(records: seq<Record>, phases: set<string>, phase: string)
    requires phase !in phases
    ensures SumOf(records, Counted(phases + {phase})) == SumOf(records, Counted(phases)) + SumOf(records, Counted({phase}))
  {
    if records != [] {
      SumOfOnePhaseMore(records[..|records| - 1], phases, phase);
    }
  }

  // ---------------------------------------------------------------- a worker's own record

  function WorkerRecord(clock: Clock, worker: Call, reading: nat): Record {
    Record(worker.phase, clock(reading), clock(After(worker.body, reading + 1)), true)
  }

  /** What the coordinator adds up from a worker's records is at most the worker's own span,
      whatever the clock, exactly when none of the time is counted twice. */
  lemma RequiredPhasesFitInWorkerIff(worker: Call, reading: nat, phases: seq<string>)
    requires worker.completed && worker.phase !in phases
    ensures (forall clock: Clock :: Monotone(clock) ==>
               SumOf(RecordsOfCall(clock, worker, reading), Counted(Elements(phases))) <= WorkerRecord(clock, worker, reading).Duration())
            <==> NoDouble(worker.body, Elements(phases))
  {
    var counted := Elements(phases);
    assert worker.phase !in counted;
    hide Elements, RecordsOf, RecordsOfCall, SumOf, After;
    if NoDouble(worker.body, counted) {
      forall clock: Clock | Monotone(clock)
        ensures SumOf(RecordsOfCall(clock, worker, reading), Counted(counted)) <= WorkerRecord(clock, worker, reading).Duration()
      {
        CallTotal(clock, worker, reading, counted);
        PhasesFitInSpan(clock, worker.body, reading + 1, counted);
        OwnRecordLast(clock, worker, reading);
      }
    } else {
      var at := CountedTwice(worker.body, reading + 1, counted);
      StepIsMonotone(at);
      CallTotal(Step(at), worker, reading, counted);
    }
  }

  /** The fault a nested phase causes: a completed setup phase inside another is counted twice. */
  lemma NestedPhasesCountTwice(outer: Call, inner: Call, phases: set<string>)
    requires Counts(outer, phases) && Counts(inner, phases) && inner in outer.body
    ensures !NoDouble([outer], phases)
  {
    CountedInside(outer.body, inner, phases);
  }

  lemma {:induction false} CountedInside(calls: seq<Call>, call: Call, phases: set<string>)
    requires call in calls && Counts(call, phases)
    ensures !NoneCounted(calls, phases)
  {
    if calls[0] != call {
      CountedInside(calls[1..], call, phases);
    }
  }

  // ---------------------------------------------------------------- the workers as they are

  /** A measured operation that measures nothing itself. */
  function Leaf(phase: string): Call { Call(phase, [], true) }

  /** A worker that ran to its end: the baseline, the five setup phases one after the other,
      then everything it measures once the model is loaded. */
  function WorkerCall(role: string, later: seq<Call>): Call {
    Call(WorkerPhase(role), [Leaf("before_model_load")] + SetupCalls(role) + later, true)
  }

  function WorkerPhase(role: string): string { role + "_complete_worker" }

  function SetupCalls(role: string): seq<Call> {
    [Leaf(role + "_worker_startup"), Leaf("snapshot_tokenizer_resolution"), Leaf("tokenizer_load"), Leaf("model_load"),
     Leaf("post_load_validation")]
  }

  /** What the FullKV worker measures after its setup: the model calls and the answer check,
      inside the one natural generation. */
  function GenerationCalls(inner: seq<Call>): seq<Call> {
    [Leaf("post_load_baseline"), Call("fullkv_complete_natural_generation", inner, true)]
  }

  predicate GenerationOperation(call: Call) {
    call.phase in ["fullkv_prefill", "fullkv_decode", "answer_verification"] && call.body == []
  }

  lemma {:induction false} LeavesNeverDouble(calls: seq<Call>, later: seq<Call>, phases: set<string>)
    requires forall call :: call in calls ==> call.body == []
    requires NoDouble(later, phases)
    ensures NoDouble(calls + later, phases)
  {
    if calls == [] {
      assert calls + later == later;
    } else {
      assert (calls + later)[1..] == calls[1..] + later;
      LeavesNeverDouble(calls[1..], later, phases);
    }
  }

  /** A worker's setup phases are never counted twice: they measure nothing inside themselves. */
  lemma SetupNeverDoubles(role: string, later: seq<Call>, phases: set<string>)
    requires NoDouble(later, phases)
    ensures NoDouble(WorkerCall(role, later).body, phases)
  {
    var setup := [Leaf("before_model_load")] + SetupCalls(role);
    LeavesNeverDouble(setup, later, phases);
  }

  /** The FullKV worker's setup and its generation together, as the runtime projection adds them
      up, are never counted twice either. */
  lemma GenerationNeverDoubles(inner: seq<Call>, phases: set<string>)
    requires forall call :: call in inner ==> GenerationOperation(call) && call.phase !in phases
    ensures NoDouble(GenerationCalls(inner), phases)
  {
    NoneCountedAmong(inner, phases);
    LeavesNeverDouble(inner, [], phases);
    assert inner + [] == inner;
    var generation := Call("fullkv_complete_natural_generation", inner, true);
    assert NoDoubleIn(generation, phases);
    assert [generation][1..] == [] && NoDouble([generation], phases);
    assert GenerationCalls(inner) == [Leaf("post_load_baseline")] + [generation];
    LeavesNeverDouble([Leaf("post_load_baseline")], [generation], phases);
  }

  lemma {:induction false} NoneCountedAmong(calls: seq<Call>, phases: set<string>)
    requires forall call :: call in calls ==> call.body == [] && call.phase !in phases
    ensures NoneCounted(calls, phases)
  {
    if calls != [] {
      NoneCountedAmong(calls[1..], phases);
    }
  }

  /** The phases of the coordinator's sum for the FullKV worker: the setup, then the generation. */
  function FullKVPhases(): seq<string> { SetupPhases("fullkv") + ["fullkv_complete_natural_generation"] }

  lemma FullKVPhasesAreItsOwn(phase: string)
    requires phase in ["fullkv_complete_worker", "fullkv_prefill", "fullkv_decode", "answer_verification"]
    ensures phase !in FullKVPhases()
  {
    var phases := FullKVPhases();
    assert |phases| == 6;
    assert |phases[0]| == 21 && |phases[1]| == 29 && |phases[2]| == 14 && |phases[3]| == 10 && |phases[4]| == 20 && |phases[5]| == 34;
    assert phases[2][0] == 't' && phases[0][7] == 'w';
    assert phase[0] == 'f' || phase[0] == 'a';
  }

  /** `_startup_and_load_seconds` of a worker's own records: when it succeeds, it is positive and
      at most the worker's recorded span. */
  method StartupAndLoadSeconds(clock: Clock, role: string, later: seq<Call>, reading: nat, records: seq<Record>)
    returns (total: Result<real, Refusal>)
    requires Monotone(clock) && records == RecordsOfCall(clock, WorkerCall(role, later), reading)
    requires NoDouble(later, Elements(SetupPhases(role)))
    ensures total.Ok? <==> forall i :: 0 <= i < 5 ==> RequiredPhaseSeconds(records, SetupPhases(role)[i]).Ok?
    ensures records != [] && records[|records| - 1] == WorkerRecord(clock, WorkerCall(role, later), reading)
    ensures total.Ok? ==> 0.0 < total.value <= records[|records| - 1].Duration()
  {
    hide RequiredPhaseSeconds, SumOf, RecordsOf, RecordsOfCall, After, NoDouble, WorkerCall, Distinct;
    SetupPhasesDistinct(role);
    total := PhaseSeconds(records, SetupPhases(role));
    SetupNeverDoubles(role, later, Elements(SetupPhases(role)));
    WorkerPhaseIsItsOwn(role, later);
    RequiredPhasesFitInWorkerIff(WorkerCall(role, later), reading, SetupPhases(role));
    OwnRecordLast(clock, WorkerCall(role, later), reading);
  }

  lemma WorkerPhaseIsItsOwn(role: string, later: seq<Call>)
    ensures WorkerCall(role, later).completed && WorkerCall(role, later).phase !in SetupPhases(role)
  {
    var phase, phases := WorkerCall(role, later).phase, SetupPhases(role);
    assert phase[|phase| - 1] == 'r';
    assert forall i :: 0 <= i < 5 ==> phases[i][|phases[i]| - 1] != 'r';
  }

  /** Setup and generation of a FullKV worker, added up, fit in its recorded span. */
  lemma FullKVWorkerFits(clock: Clock, inner: seq<Call>, reading: nat)
    requires Monotone(clock) && forall call :: call in inner ==> GenerationOperation(call)
    ensures var worker := WorkerCall("fullkv", GenerationCalls(inner));
            SumOf(RecordsOfCall(clock, worker, reading), Counted(Elements(FullKVPhases()))) <= WorkerRecord(clock, worker, reading).Duration()
    ensures NoDouble(GenerationCalls(inner), Elements(SetupPhases("fullkv")))
  {
    hide FullKVPhases, SetupPhases, Elements, NoDouble, RecordsOfCall, SumOf, WorkerCall, GenerationCalls, GenerationOperation;
    var worker, phases := WorkerCall("fullkv", GenerationCalls(inner)), Elements(FullKVPhases());
    GenerationIsItsOwn(inner);
    FullKVWorkerIsItsOwn(inner);
    GenerationNeverDoubles(inner, phases);
    GenerationNeverDoubles(inner, Elements(SetupPhases("fullkv")));
    SetupNeverDoubles("fullkv", GenerationCalls(inner), phases);
    RequiredPhasesFitInWorkerIff(worker, reading, FullKVPhases());
  }

  lemma FullKVWorkerIsItsOwn(inner: seq<Call>)
    ensures var worker := WorkerCall("fullkv", GenerationCalls(inner)); worker.completed && worker.phase !in FullKVPhases()
  {
    hide FullKVPhases;
    assert WorkerPhase("fullkv") == "fullkv_complete_worker";
    FullKVPhasesAreItsOwn("fullkv_complete_worker");
  }

  lemma GenerationIsItsOwn(inner: seq<Call>)
    requires forall call :: call in inner ==> GenerationOperation(call)
    ensures forall call :: call in inner ==> call.phase !in Elements(FullKVPhases()) && call.phase !in Elements(SetupPhases("fullkv"))
  {
    hide SetupPhases;
    forall call | call in inner
      ensures call.phase !in FullKVPhases() && call.phase !in SetupPhases("fullkv")
    {
      FullKVPhasesAreItsOwn(call.phase);
    }
    assert forall phase :: phase in SetupPhases("fullkv") ==> phase in FullKVPhases();
  }

  // ---------------------------------------------------------------- the R-KV worker

  function PassPhases(): seq<string> { ["rkv_complete_pass1", "rkv_complete_pass2"] }

  /** The phases the coordinator adds up for the R-KV worker: the setup, then the two passes. */
  function RkvPhases(): seq<string> { SetupPhases("rkv") + PassPhases() }

  /** What the worker measures besides: inside a pass, between them, or for a pair afterwards. */
  predicate RkvDetail(phase: string) {
    || phase in ["post_load_baseline", "rkv_pass1_prefill", "rkv_pass1_decode", "rkv_pass2_prefill", "rkv_pass2_decode",
                 "snapshot_creation", "capture_gather_and_parity", "answer_verification", "pass1_plan_construction",
                 "minimized_target_evidence_construction", "compact_target_conversion", "call_trace_comparison"]
    || "real_pair:" <= phase
    || "no_op_pair:" <= phase
  }

  /** Only such calls, however nested. */
  predicate Details(calls: seq<Call>) {
    calls == [] || (RkvDetail(calls[0].phase) && Details(calls[0].body) && Details(calls[1..]))
  }

  /** What a finished R-KV worker has measured after its setup, in any order and number, so early
      ends of the example are included: passes of details, and details. A pass that failed aborts
      the worker. */
  predicate RkvCalls(later: seq<Call>) {
    forall call :: call in later ==>
      Details(call.body) && (if call.phase in PassPhases() then call.completed else RkvDetail(call.phase))
  }

  lemma DetailsAreNotCounted(phase: string)
    requires RkvDetail(phase) || phase == "rkv_complete_worker"
    ensures phase !in RkvPhases()
  {
    var phases := RkvPhases();
    assert |phases| == 7;
    assert |phases[0]| == 18 && |phases[1]| == 29 && |phases[2]| == 14 && |phases[3]| == 10 && |phases[4]| == 20;
    assert |phases[5]| == 18 && |phases[6]| == 18 && phases[0][0] == phases[5][0] == phases[6][0] == 'r';
    assert phases[0][1] == phases[5][1] == phases[6][1] == 'k';
    assert phases[1][0] == 's' && phases[2][0] == 't' && phases[3][0] == 'm' && phases[4][0] == 'p';
    DetailsLook(phase);
  }

  /** Every detail differs from a counted phase in its length or in its beginning. */
  lemma DetailsLook(phase: string)
    requires RkvDetail(phase) || phase == "rkv_complete_worker"
    ensures |phase| >= 10
    ensures phase[0] == 'n' || (phase[0] == 'r' && phase[1] == 'e') || |phase| !in [10, 14, 18, 20, 29] || (phase[0] == 'p' && |phase| == 18)
  {
    if "real_pair:" <= phase {
      assert phase[0] == "real_pair:"[0] && phase[1] == "real_pair:"[1];
    } else if "no_op_pair:" <= phase {
      assert phase[0] == "no_op_pair:"[0];
    }
  }

  lemma {:induction false} DetailsCountNothing(calls: seq<Call>, phases: set<string>)
    requires Details(calls) && phases <= Elements(RkvPhases())
    ensures NoneCounted(calls, phases)
    decreases calls
  {
    if calls != [] {
      hide RkvDetail, RkvPhases;
      DetailsAreNotCounted(calls[0].phase);
      DetailsCountNothing(calls[0].body, phases);
      DetailsCountNothing(calls[1..], phases);
    }
  }

  /** Setup and both passes together are never counted twice. */
  lemma {:induction false} RkvNeverDoubles(later: seq<Call>, phases: set<string>)
    requires RkvCalls(later) && phases <= Elements(RkvPhases())
    ensures NoDouble(later, phases)
  {
    if later != [] {
      hide RkvDetail, RkvPhases;
      DetailsCountNothing(later[0].body, phases);
      NoneCountedNoDouble(later[0].body, phases);
      RkvNeverDoubles(later[1..], phases);
    }
  }

  lemma {:induction false} NoneCountedNoDouble(calls: seq<Call>, phases: set<string>)
    requires NoneCounted(calls, phases)
    ensures NoDouble(calls, phases)
    decreases calls
  {
    if calls != [] {
      NoneCountedNoDouble(calls[0].body, phases);
      NoneCountedNoDouble(calls[1..], phases);
    }
  }

  /** `next(... if record.phase == phase), 0.0)`: how the worker reports the time of a pass. */
  function FirstSeconds(records: seq<Record>, phase: string): real {
    if records == [] then 0.0 else if records[0].phase == phase then records[0].Duration() else FirstSeconds(records[1..], phase)
  }

  /** It is the duration of the first record of the phase, zero without one. */
  lemma {:induction false} FirstSecondsIs(records: seq<Record>, phase: string, k: nat)
    requires k <= |records| && forall i :: 0 <= i < k ==> records[i].phase != phase
    requires k < |records| ==> records[k].phase == phase
    ensures FirstSeconds(records, phase) == if k < |records| then records[k].end - records[k].start else 0.0
  {
    if k > 0 {
      FirstSecondsIs(records[1..], phase, k - 1);
    }
  }

  lemma {:induction false} FirstSecondsWithin(records: seq<Record>, phase: string)
    requires forall r :: r in records ==> r.Duration() >= 0.0 && (r.phase == phase ==> r.completed)
    ensures FirstSeconds(records, phase) <= SumOf(records, Counted({phase}))
    ensures SumOf(records, Counted({phase})) >= 0.0
  {
    if records != [] {
      var first, rest := records[0], records[1..];
      FirstSecondsWithin(rest, phase);
      assert records == [first] + rest && [] + [first] == [first];
      SumOfConcat([first], rest, Counted({phase}));
      SumOfSnoc([], first, Counted({phase}));
    }
  }

  /** No pass failed, and none was measured inside another call. */
  predicate PassesComplete(calls: seq<Call>) {
    forall call :: call in calls ==> Details(call.body) && (call.phase in PassPhases() ==> call.completed)
  }

  /** Then every record of a pass is completed. */
  lemma {:induction false} RkvRecords(clock: Clock, later: seq<Call>, reading: nat, r: Record)
    requires Monotone(clock) && PassesComplete(later) && r in RecordsOf(clock, later, reading)
    ensures r.phase in PassPhases() ==> r.completed
  {
    hide RkvDetail, PassPhases, RkvPhases;
    var call, next := later[0], AfterCall(later[0], reading);
    if r in RecordsOf(clock, later[1..], next) {
      RkvRecords(clock, later[1..], next, r);
    } else if r in RecordsOf(clock, call.body, reading + 1) {
      DetailRecords(clock, call.body, reading + 1, r);
      DetailIsNoPass(r.phase);
    }
  }

  lemma DetailIsNoPass(phase: string)
    requires RkvDetail(phase) || phase == "rkv_complete_worker"
    ensures phase !in PassPhases()
  {
    DetailsAreNotCounted(phase);
    var passes, phases := PassPhases(), RkvPhases();
    hide RkvDetail, SetupPhases;
    assert phases[|phases| - 2..] == passes;
  }

  lemma {:induction false} DetailRecords(clock: Clock, calls: seq<Call>, reading: nat, r: Record)
    requires Monotone(clock) && Details(calls) && r in RecordsOf(clock, calls, reading)
    ensures RkvDetail(r.phase)
    decreases calls
  {
    hide RkvDetail;
    var call, next := calls[0], AfterCall(calls[0], reading);
    if r in RecordsOf(clock, calls[1..], next) {
      DetailRecords(clock, calls[1..], next, r);
    } else if r in RecordsOf(clock, call.body, reading + 1) {
      DetailRecords(clock, call.body, reading + 1, r);
    }
  }

  /** What the coordinator attributes to an R-KV worker, the setup and the two passes' times as
      the worker reports them, is at most the worker's recorded span; and the sum of the setup
      alone needs no further hypothesis. */
  lemma RkvWorkerFits(clock: Clock, later: seq<Call>, reading: nat)
    requires Monotone(clock) && RkvCalls(later)
    ensures NoDouble(later, Elements(SetupPhases("rkv")))
    ensures var worker := WorkerCall("rkv", later);
            var records := RecordsOfCall(clock, worker, reading);
            SumOf(records, Counted(Elements(SetupPhases("rkv")))) + FirstSeconds(records, "rkv_complete_pass1")
            + FirstSeconds(records, "rkv_complete_pass2") <= WorkerRecord(clock, worker, reading).Duration()
  {
    hide SetupPhases, RkvPhases, Elements, NoDouble, RecordsOf, RecordsOfCall, SumOf, FirstSeconds, RkvDetail, Details, RkvCalls, WorkerCall;
    var worker := WorkerCall("rkv", later);
    var records := RecordsOfCall(clock, worker, reading);
    RkvSum(records);
    RkvNeverDoubles(later, Elements(SetupPhases("rkv")));
    RkvNeverDoubles(later, Elements(RkvPhases()));
    SetupNeverDoubles("rkv", later, Elements(RkvPhases()));
    RkvWorkerPhase(later);
    DetailsAreNotCounted("rkv_complete_worker");
    RequiredPhasesFitInWorkerIff(worker, reading, RkvPhases());
    forall r | r in records
      ensures r.Duration() >= 0.0 && (r.phase in PassPhases() ==> r.completed)
    {
      RkvWorkerRecord(clock, later, reading, r);
    }
    FirstSecondsWithin(records, "rkv_complete_pass1");
    FirstSecondsWithin(records, "rkv_complete_pass2");
  }

  lemma RkvWorkerPhase(later: seq<Call>)
    ensures WorkerCall("rkv", later).completed && WorkerCall("rkv", later).phase == "rkv_complete_worker"
  {
  }

  /** Summing the setup and the passes apart or together is the same. */
  lemma RkvSum(records: seq<Record>)
    ensures SumOf(records, Counted(Elements(RkvPhases()))) ==
              SumOf(records, Counted(Elements(SetupPhases("rkv")))) + SumOf(records, Counted({"rkv_complete_pass1"}))
              + SumOf(records, Counted({"rkv_complete_pass2"}))
    ensures Elements(SetupPhases("rkv")) <= Elements(RkvPhases())
  {
    hide SumOf;
    var setup, first, second := SetupPhases("rkv"), "rkv_complete_pass1", "rkv_complete_pass2";
    PassesAreNotSetup();
    assert RkvPhases() == setup + [first] + [second];
    ElementsSnoc(setup, first);
    ElementsSnoc(setup + [first], second);
    hide SetupPhases, RkvPhases, Elements;
    assert first[17] != second[17];
    SumOfOnePhaseMore(records, Elements(setup), first);
    SumOfOnePhaseMore(records, Elements(setup) + {first}, second);
  }

  lemma PassesAreNotSetup()
    ensures "rkv_complete_pass1" !in Elements(SetupPhases("rkv")) && "rkv_complete_pass2" !in Elements(SetupPhases("rkv"))
  {
    var phases, first, second := SetupPhases("rkv"), "rkv_complete_pass1", "rkv_complete_pass2";
    assert |phases[1]| == 29 && |phases[2]| == 14 && |phases[3]| == 10 && |phases[4]| == 20;
    assert phases[0][4] == 'w' && first[4] == second[4] == 'c' && |first| == |second| == 18;
  }

  lemma RkvWorkerRecord(clock: Clock, later: seq<Call>, reading: nat, r: Record)
    requires Monotone(clock) && RkvCalls(later) && r in RecordsOfCall(clock, WorkerCall("rkv", later), reading)
    ensures r.Duration() >= 0.0 && (r.phase in PassPhases() ==> r.completed)
  {
    var worker := WorkerCall("rkv", later);
    AloneIsAll(clock, worker, reading);
    hide WorkerCall, RecordsOf, RecordsOfCall, After, RkvCalls, PassPhases;
    RkvWorkerPhase(later);
    RecordsWithin(clock, [worker], reading, r);
    OwnRecordLast(clock, worker, reading);
    if r in RecordsOf(clock, worker.body, reading + 1) {
      WorkerPassesComplete(later);
      RkvRecords(clock, worker.body, reading + 1, r);
    }
  }

  lemma AloneIsAll(clock: Clock, call: Call, reading: nat)
    ensures RecordsOf(clock, [call], reading) == RecordsOfCall(clock, call, reading)
  {
    assert [call][1..] == [];
    hide RecordsOfCall;
  }

  lemma WorkerPassesComplete(later: seq<Call>)
    requires RkvCalls(later)
    ensures PassesComplete(WorkerCall("rkv", later).body)
  {
    hide PassPhases, RkvDetail;
  }
}

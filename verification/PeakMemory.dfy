/** The phase-owned memory meter: each `observe` resets the device's peak counter, so what the
    records add up to depends on how the calls nest
    (src/kvcot/discovery/execution_measurement.py). */
module PeakMemory {
  import opened Prelude

  /** What the device did, as it happened: allocations change the allocated bytes, `Observe`
      is a measured operation that ran `body` and then returned or raised. */
  datatype Step =
    | Set(inUse: nat)
    | Observe(phase: string, body: seq<Step>, completed: bool)

  datatype Device = Device(inUse: nat, peak: nat)

  datatype Record = Record(phase: string, allocatedBefore: nat, peakAllocated: nat, allocatedAfter: nat, completed: bool)

  // ---------------------------------------------------------------- what the counters do

  function AfterStep(s: Step, d: Device): Device {
    match s
    case Set(inUse) => Device(inUse, Max(d.peak, inUse))
    case Observe(_, body, _) => After(body, Device(d.inUse, d.inUse))
  }

  function After(steps: seq<Step>, d: Device): Device {
    if steps == [] then d else After(steps[1..], AfterStep(steps[0], d))
  }

  function RecordsOfStep(s: Step, d: Device): seq<Record> {
    match s
    case Set(_) => []
    case Observe(phase, body, completed) =>
      var reset := Device(d.inUse, d.inUse);
      var end := After(body, reset);
      RecordsOf(body, reset) + [Record(phase, d.inUse, end.peak, end.inUse, completed)]
  }

  function RecordsOf(steps: seq<Step>, d: Device): seq<Record> {
    if steps == [] then [] else RecordsOfStep(steps[0], d) + RecordsOf(steps[1..], AfterStep(steps[0], d))
  }

  // ---------------------------------------------------------------- the code

  class Cuda {
    var inUse: nat
    var peak: nat

    ghost function Now(): Device
      reads this
    {
      Device(inUse, peak)
    }
  }

  class CudaMemoryMeasurer {
    const cuda: Cuda
    var records: seq<Record>

    constructor (cuda: Cuda)
      ensures this.cuda == cuda && records == []
    {
      this.cuda := cuda;
      records := [];
    }

    /** `observe`: reset the peak, run the operation, record whether or not it raised. */
    method Measure(phase: string, body: seq<Step>, completed: bool) returns (raised: bool)
      modifies this, cuda
      ensures cuda.Now() == AfterStep(Observe(phase, body, completed), old(cuda.Now()))
      ensures records == old(records) + RecordsOfStep(Observe(phase, body, completed), old(cuda.Now()))
      ensures raised == !completed
      decreases body, 1
    {
      var allocatedBefore := cuda.inUse;
      cuda.peak := cuda.inUse;
      Perform(body);
      records := records + [Record(phase, allocatedBefore, cuda.peak, cuda.inUse, completed)];
      raised := !completed;
    }

    /** The device doing the steps one by one, measured calls included. */
    method Perform(steps: seq<Step>)
      modifies this, cuda
      ensures cuda.Now() == After(steps, old(cuda.Now()))
      ensures records == old(records) + RecordsOf(steps, old(cuda.Now()))
      decreases steps, 0
    {
      ghost var start, was := cuda.Now(), records;
      for n := 0 to |steps|
        invariant After(steps, start) == After(steps[n..], cuda.Now())
        invariant was + RecordsOf(steps, start) == records + RecordsOf(steps[n..], cuda.Now())
      {
        assert steps[n..][0] == steps[n] && steps[n..][1..] == steps[n + 1..];
        match steps[n]
        case Set(inUse) =>
          cuda.inUse, cuda.peak := inUse, Max(cuda.peak, inUse);
        case Observe(phase, body, completed) =>
          var ignored := Measure(phase, body, completed);
      }
    }

    /** `maximum_peak_allocated`. */
    method MaximumPeakAllocated() returns (m: nat)
      ensures m == Highest(Peaks(records))
    {
      m := 0;
      for n := 0 to |records|
        invariant m == Highest(Peaks(records[..n]))
      {
        HighestSnoc(Peaks(records[..n]), records[n].peakAllocated);
        assert Peaks(records[..n + 1]) == Peaks(records[..n]) + [records[n].peakAllocated];
        m := Max(m, records[n].peakAllocated);
      }
      assert records[..|records|] == records;
    }
  }

  function Peaks(records: seq<Record>): seq<nat> {
    seq(|records|, i requires 0 <= i < |records| => records[i].peakAllocated)
  }

  /** `max(xs, default=0)`. */
  function Highest(xs: seq<nat>): (h: nat)
    ensures forall x :: x in xs ==> x <= h
    ensures if xs == [] then h == 0 else h in xs
  {
    if xs == [] then 0 else if |xs| == 1 then xs[0]
    else
      assert xs == [xs[0]] + xs[1..];
      Max(xs[0], Highest(xs[1..]))
  }

  lemma HighestIs(xs: seq<nat>, h: nat)
    requires forall x :: x in xs ==> x <= h
    requires if xs == [] then h == 0 else h in xs
    ensures Highest(xs) == h
  {
  }

  lemma HighestSnoc(xs: seq<nat>, x: nat)
    ensures Highest(xs + [x]) == Max(Highest(xs), x)
  {
    HighestIs(xs + [x], Max(Highest(xs), x));
  }

  lemma HighestConcat(xs: seq<nat>, ys: seq<nat>)
    ensures Highest(xs + ys) == Max(Highest(xs), Highest(ys))
  {
    HighestIs(xs + ys, Max(Highest(xs), Highest(ys)));
  }

  // ---------------------------------------------------------------- what each record says

  /** The level once the steps are over; measuring does not change it. */
  function LevelAfter(steps: seq<Step>, level: nat): nat {
    if steps == [] then level else
      LevelAfter(steps[1..], match steps[0] case Set(inUse) => inUse case Observe(_, body, _) => LevelAfter(body, level))
  }

  /** The phases in post-order: a call comes after every call measured inside it. */
  function PostOrder(steps: seq<Step>): seq<string> {
    if steps == [] then [] else
      (match steps[0] case Set(_) => [] case Observe(phase, body, _) => PostOrder(body) + [phase]) + PostOrder(steps[1..])
  }

  function PhasesOf(records: seq<Record>): seq<string> {
    seq(|records|, i requires 0 <= i < |records| => records[i].phase)
  }

  lemma {:induction false} LevelsFollow(steps: seq<Step>, d: Device)
    ensures After(steps, d).inUse == LevelAfter(steps, d.inUse)
    ensures d.peak >= d.inUse ==> After(steps, d).peak >= After(steps, d).inUse
    decreases steps
  {
    if steps != [] {
      if steps[0].Observe? {
        LevelsFollow(steps[0].body, Device(d.inUse, d.inUse));
      }
      LevelsFollow(steps[1..], AfterStep(steps[0], d));
    }
  }

  /** A measured call's record is its last: the phase, the level it found and the one it left, a peak
      no lower than what it left, and whether it completed. */
  lemma RecordBracketsItsCall(phase: string, body: seq<Step>, completed: bool, d: Device)
    ensures var records := RecordsOfStep(Observe(phase, body, completed), d);
            && |records| == |RecordsOf(body, Device(d.inUse, d.inUse))| + 1
            && var r := records[|records| - 1];
               && r.phase == phase && r.completed == completed
               && r.allocatedBefore == d.inUse && r.allocatedAfter == LevelAfter(body, d.inUse)
               && r.peakAllocated >= r.allocatedAfter
  {
    LevelsFollow(body, Device(d.inUse, d.inUse));
  }

  /** One record per measured call, in post-order. */
  lemma {:induction false} RecordsInPostOrder(steps: seq<Step>, d: Device)
    ensures PhasesOf(RecordsOf(steps, d)) == PostOrder(steps)
    decreases steps
  {
    if steps != [] {
      var first, rest := RecordsOfStep(steps[0], d), RecordsOf(steps[1..], AfterStep(steps[0], d));
      RecordsInPostOrder(steps[1..], AfterStep(steps[0], d));
      if steps[0].Observe? {
        var reset := Device(d.inUse, d.inUse);
        RecordsInPostOrder(steps[0].body, reset);
        assert PhasesOf(first) == PhasesOf(RecordsOf(steps[0].body, reset)) + [steps[0].phase];
      }
      assert PhasesOf(first + rest) == PhasesOf(first) + PhasesOf(rest);
    }
  }

  // ---------------------------------------------------------------- what really happened

  /** Allocated bytes at every instant inside some measured operation, its start included. */
  function ObservedLevels(steps: seq<Step>, d: Device, inside: bool): seq<nat> {
    if steps == [] then [] else
      (match steps[0]
       case Set(inUse) => if inside then [inUse] else []
       case Observe(_, body, _) => [d.inUse] + ObservedLevels(body, Device(d.inUse, d.inUse), true))
      + ObservedLevels(steps[1..], AfterStep(steps[0], d), inside)
  }

  /** No measured operation inside another. */
  predicate Flat(steps: seq<Step>) {
    forall s :: s in steps && s.Observe? ==> forall inner :: inner in s.body ==> inner.Set?
  }

  // ---------------------------------------------------------------- what the counters see

  /** The levels since the last reset: the current peak is their maximum. */
  predicate Segment(d: Device, since: seq<nat>) {
    since != [] && since[|since| - 1] == d.inUse && d.peak == Highest(since)
  }

  function SegmentAfterStep(s: Step, since: seq<nat>): (r: seq<nat>)
    requires since != []
    ensures r != []
  {
    match s
    case Set(inUse) => since + [inUse]
    case Observe(_, body, _) => SegmentAfter(body, [since[|since| - 1]])
  }

  function SegmentAfter(steps: seq<Step>, since: seq<nat>): (r: seq<nat>)
    requires since != []
    ensures r != []
  {
    if steps == [] then since else SegmentAfter(steps[1..], SegmentAfterStep(steps[0], since))
  }

  lemma {:induction false} SegmentKept(steps: seq<Step>, d: Device, since: seq<nat>)
    requires Segment(d, since)
    ensures Segment(After(steps, d), SegmentAfter(steps, since))
    decreases steps
  {
    if steps != [] {
      SegmentKeptByStep(steps[0], d, since);
      SegmentKept(steps[1..], AfterStep(steps[0], d), SegmentAfterStep(steps[0], since));
    }
  }

  lemma {:induction false} SegmentKeptByStep(s: Step, d: Device, since: seq<nat>)
    requires Segment(d, since)
    ensures Segment(AfterStep(s, d), SegmentAfterStep(s, since))
    decreases s
  {
    match s
    case Set(inUse) => HighestSnoc(since, inUse);
    case Observe(_, body, _) => SegmentKept(body, Device(d.inUse, d.inUse), [d.inUse]);
  }

  /** The levels that count towards some record. */
  function KeptLevels(steps: seq<Step>, since: seq<nat>): seq<nat>
    requires since != []
  {
    if steps == [] then [] else KeptByStep(steps[0], since[|since| - 1]) + KeptLevels(steps[1..], SegmentAfterStep(steps[0], since))
  }

  function KeptByStep(s: Step, level: nat): seq<nat> {
    match s
    case Set(_) => []
    case Observe(_, body, _) => KeptLevels(body, [level]) + SegmentAfter(body, [level])
  }

  /** The levels an operation passed through before a measured call inside it discarded them. */
  function DiscardedLevels(steps: seq<Step>, since: seq<nat>, inside: bool): seq<nat>
    requires since != []
  {
    if steps == [] then [] else
      (match steps[0]
       case Set(_) => []
       case Observe(_, body, _) =>
         (if inside then since else []) + DiscardedLevels(body, [since[|since| - 1]], true))
      + DiscardedLevels(steps[1..], SegmentAfterStep(steps[0], since), inside)
  }

  /** The records' maximum is the maximum of the kept levels. */
  lemma {:induction false} RecordsSeeKeptLevels(steps: seq<Step>, d: Device, since: seq<nat>)
    requires Segment(d, since)
    ensures Highest(Peaks(RecordsOf(steps, d))) == Highest(KeptLevels(steps, since))
    decreases steps
  {
    if steps != [] {
      var s, rest := steps[0], steps[1..];
      var later, laterSince := AfterStep(s, d), SegmentAfterStep(s, since);
      SegmentKeptByStep(s, d, since);
      RecordsOfStepSeeKeptLevels(s, d);
      RecordsSeeKeptLevels(rest, later, laterSince);
      assert Peaks(RecordsOf(steps, d)) == Peaks(RecordsOfStep(s, d)) + Peaks(RecordsOf(rest, later));
      HighestConcat(Peaks(RecordsOfStep(s, d)), Peaks(RecordsOf(rest, later)));
      HighestConcat(KeptByStep(s, d.inUse), KeptLevels(rest, laterSince));
    }
  }

  lemma {:induction false} RecordsOfStepSeeKeptLevels(s: Step, d: Device)
    ensures Highest(Peaks(RecordsOfStep(s, d))) == Highest(KeptByStep(s, d.inUse))
    decreases s
  {
    if s.Observe? {
      var reset := Device(d.inUse, d.inUse);
      RecordsSeeKeptLevels(s.body, reset, [d.inUse]);
      SegmentKept(s.body, reset, [d.inUse]);
      var inner, own := Peaks(RecordsOf(s.body, reset)), After(s.body, reset).peak;
      assert Peaks(RecordsOfStep(s, d)) == inner + [own];
      HighestSnoc(inner, own);
      HighestConcat(KeptLevels(s.body, [d.inUse]), SegmentAfter(s.body, [d.inUse]));
    }
  }

  /** Every observed level is kept, discarded, or still pending in the current segment; and
      nothing else is. */
  lemma {:induction false} ObservedAreKeptOrDiscarded(steps: seq<Step>, d: Device, since: seq<nat>, inside: bool, x: nat)
    requires Segment(d, since)
    ensures x in ObservedLevels(steps, d, inside) || (inside && x in since) <==>
              || x in KeptLevels(steps, since)
              || x in DiscardedLevels(steps, since, inside)
              || (inside && x in SegmentAfter(steps, since))
    decreases steps
  {
    if steps != [] {
      var s, rest := steps[0], steps[1..];
      SegmentKeptByStep(s, d, since);
      ObservedAreKeptOrDiscarded(rest, AfterStep(s, d), SegmentAfterStep(s, since), inside, x);
      if s.Observe? {
        var reset := Device(d.inUse, d.inUse);
        SegmentKept(s.body, reset, [d.inUse]);
        ObservedAreKeptOrDiscarded(s.body, reset, [d.inUse], true, x);
      }
    }
  }

  // ---------------------------------------------------------------- the results

  function RecordedPeak(steps: seq<Step>, d: Device): nat { Highest(Peaks(RecordsOf(steps, d))) }

  function TruePeak(steps: seq<Step>, d: Device): nat { Highest(ObservedLevels(steps, d, false)) }

  /** The recorded peak never exceeds the true one, and reaches it exactly when no discarded
      level was higher than every level that was kept. */
  lemma RecordedPeakIsTrueIff(steps: seq<Step>, d: Device)
    ensures RecordedPeak(steps, d) <= TruePeak(steps, d)
    ensures RecordedPeak(steps, d) == TruePeak(steps, d) <==>
              Highest(DiscardedLevels(steps, [d.inUse], false)) <= Highest(KeptLevels(steps, [d.inUse]))
  {
    var start := Device(d.inUse, d.inUse);
    var since := [d.inUse];
    StartingPeakIsIrrelevant(steps, d);
    RecordsSeeKeptLevels(steps, start, since);
    var kept, discarded, observed := KeptLevels(steps, since), DiscardedLevels(steps, since, false), ObservedLevels(steps, start, false);
    forall x: nat
      ensures x in observed <==> x in kept || x in discarded
    {
      ObservedAreKeptOrDiscarded(steps, start, since, false, x);
    }
    HighestConcat(kept, discarded);
    assert forall x :: x in kept + discarded <==> x in observed;
    assert observed != [] ==> observed[0] in kept + discarded;
    assert kept + discarded != [] ==> (kept + discarded)[0] in observed;
    HighestIs(observed, Highest(kept + discarded));
  }

  /** The peak left over from before the first measured call plays no part. */
  lemma {:induction false} StartingPeakIsIrrelevant(steps: seq<Step>, d: Device)
    ensures RecordsOf(steps, d) == RecordsOf(steps, Device(d.inUse, d.inUse))
    ensures ObservedLevels(steps, d, false) == ObservedLevels(steps, Device(d.inUse, d.inUse), false)
  {
    SamePastIrrelevant(steps, d, Device(d.inUse, d.inUse));
  }

  lemma {:induction false} SamePastIrrelevant(steps: seq<Step>, d: Device, e: Device)
    requires d.inUse == e.inUse
    ensures RecordsOf(steps, d) == RecordsOf(steps, e)
    ensures ObservedLevels(steps, d, false) == ObservedLevels(steps, e, false)
  {
    if steps != [] {
      SamePastIrrelevant(steps[1..], AfterStep(steps[0], d), AfterStep(steps[0], e));
    }
  }

  // ---------------------------------------------------------------- what nesting alone decides

  /** The same calls and allocations in the same nesting, with other levels. */
  predicate SameShape(a: seq<Step>, b: seq<Step>) {
    if a == [] || b == [] then a == b else
      && (match (a[0], b[0])
          case (Set(_), Set(_)) => true
          case (Observe(p, x, c), Observe(q, y, e)) => p == q && c == e && SameShape(x, y)
          case _ => false)
      && SameShape(a[1..], b[1..])
  }

  /** No measured call starts inside another while a level of the other's current segment, the
      present one apart, is in no record. `held` says that the present level is in the record of
      a call that has ended; `hidden`, that some level before it in the segment is in none. */
  predicate NothingHidden(steps: seq<Step>, inside: bool, hidden: bool, held: bool) {
    steps == [] ||
    match steps[0]
    case Set(_) => NothingHidden(steps[1..], inside, inside && (hidden || !held), false)
    case Observe(_, body, _) =>
      && !hidden
      && NothingHidden(body, true, false, held)
      && NothingHidden(steps[1..], inside, false, true)
  }

  /** The recorded peak is the true one whatever the levels, if and only if the nesting hides
      nothing. In particular a nested call may follow one allocation made after an earlier nested
      call, but not two. */
  lemma RecordedPeakAlwaysTrueIff(steps: seq<Step>)
    ensures (forall other, d: Device :: SameShape(steps, other) ==> RecordedPeak(other, d) == TruePeak(other, d)) <==>
              NothingHidden(steps, false, false, false)
  {
    if NothingHidden(steps, false, false, false) {
      forall other, d: Device | SameShape(steps, other)
        ensures RecordedPeak(other, d) == TruePeak(other, d)
      {
        HidingIsShape(steps, other, false, false, false);
        NothingHiddenPeakIsTrue(other, d);
      }
    } else {
      var d := Device(StartLevel(steps, false, false), 0);
      HidingLosesAPeak(steps, d);
      LosingIsShape(steps, false, false);
      assert SameShape(steps, Losing(steps, false, false));
    }
  }

  lemma {:induction false} HidingIsShape(a: seq<Step>, b: seq<Step>, inside: bool, hidden: bool, held: bool)
    requires SameShape(a, b)
    ensures NothingHidden(a, inside, hidden, held) == NothingHidden(b, inside, hidden, held)
  {
    if a != [] {
      match a[0]
      case Set(_) => HidingIsShape(a[1..], b[1..], inside, inside && (hidden || !held), false);
      case Observe(_, body, _) =>
        HidingIsShape(body, b[0].body, true, false, held);
        HidingIsShape(a[1..], b[1..], inside, false, true);
    }
  }

  lemma NothingHiddenPeakIsTrue(steps: seq<Step>, d: Device)
    requires NothingHidden(steps, false, false, false)
    ensures RecordedPeak(steps, d) == TruePeak(steps, d)
  {
    var discarded, kept := DiscardedLevels(steps, [d.inUse], false), KeptLevels(steps, [d.inUse]);
    forall x | x in discarded
      ensures x in kept
    {
      DiscardedIsKept(steps, false, false, false, [d.inUse], x, false);
    }
    RecordedPeakIsTrueIff(steps, d);
  }

  /** Where nothing is hidden, a level that is discarded is in some record, `known` for one
      already made; and so is the level at the start, unless the segment still holds it. */
  lemma {:induction false} DiscardedIsKept(steps: seq<Step>, inside: bool, hidden: bool, held: bool, since: seq<nat>, x: nat, known: bool)
    requires since != [] && NothingHidden(steps, inside, hidden, held)
    requires inside && !hidden && x in since[..|since| - 1] ==> known
    requires held && x == since[|since| - 1] ==> known
    ensures x in DiscardedLevels(steps, since, inside) ==> known || x in KeptLevels(steps, since)
    ensures inside && x == since[|since| - 1] ==> known || x in KeptLevels(steps, since) || x in SegmentAfter(steps, since)
    decreases steps
  {
    if steps != [] {
      var level, rest, next := since[|since| - 1], steps[1..], SegmentAfterStep(steps[0], since);
      match steps[0]
      case Set(inUse) =>
        assert next[..|next| - 1] == since;
        DiscardedIsKept(rest, inside, inside && (hidden || !held), false, next, x, known);
        if inside && (hidden || !held) && x in next {
          HiddenStays(rest, false, next, x);
        }
      case Observe(_, body, _) =>
        DiscardedIsKept(body, true, false, held, [level], x, known);
        DiscardedIsKept(rest, inside, false, true, next, x, known || x in KeptByStep(steps[0], level));
    }
  }

  /** Once a level is hidden no nested call may start, so the segment keeps all its levels. */
  lemma {:induction false} HiddenStays(steps: seq<Step>, held: bool, since: seq<nat>, x: nat)
    requires since != [] && x in since && NothingHidden(steps, true, true, held)
    ensures x in SegmentAfter(steps, since)
  {
    if steps != [] {
      HiddenStays(steps[1..], false, SegmentAfterStep(steps[0], since), x);
    }
  }

  // ---------------------------------------------------------------- levels that lose the peak

  function Zero(steps: seq<Step>): seq<Step> {
    if steps == [] then [] else
      [match steps[0]
       case Set(_) => Set(0)
       case Observe(phase, body, completed) => Observe(phase, Zero(body), completed)]
      + Zero(steps[1..])
  }

  predicate HasObserve(steps: seq<Step>) {
    steps != [] && (steps[0].Observe? || HasObserve(steps[1..]))
  }

  /** The level at the start is the one the first loss loses. */
  predicate StartLost(steps: seq<Step>, inside: bool, held: bool) {
    steps != [] &&
    match steps[0]
    case Set(_) => inside && !held && HasObserve(steps[1..])
    case Observe(_, body, _) => StartLost(body, true, held)
  }

  function StartLevel(steps: seq<Step>, inside: bool, held: bool): nat {
    if StartLost(steps, inside, held) then 1 else 0
  }

  /** The steps with the level of the first loss at one and all others at zero. */
  function Losing(steps: seq<Step>, inside: bool, held: bool): seq<Step> {
    if StartLost(steps, inside, held) then Zero(steps) else
    if steps == [] then [] else
      match steps[0]
      case Set(_) =>
        [Set(StartLevel(steps[1..], inside, false))] + Losing(steps[1..], inside, false)
      case Observe(phase, body, completed) =>
        if NothingHidden(body, true, false, held) then
          [Observe(phase, Zero(body), completed)] + Losing(steps[1..], inside, true)
        else
          [Observe(phase, Losing(body, true, held), completed)] + Zero(steps[1..])
  }

  predicate AllZero(xs: seq<nat>) { forall x :: x in xs ==> x == 0 }

  lemma {:induction false} ZeroIsShape(steps: seq<Step>)
    ensures SameShape(steps, Zero(steps))
  {
    if steps != [] {
      ZeroIsShape(steps[1..]);
      if steps[0].Observe? {
        ZeroIsShape(steps[0].body);
      }
    }
  }

  lemma {:induction false} LosingIsShape(steps: seq<Step>, inside: bool, held: bool)
    ensures SameShape(steps, Losing(steps, inside, held))
  {
    ZeroIsShape(steps);
    if steps != [] && !StartLost(steps, inside, held) {
      match steps[0]
      case Set(_) => LosingIsShape(steps[1..], inside, false);
      case Observe(_, body, _) =>
        ZeroIsShape(body);
        ZeroIsShape(steps[1..]);
        LosingIsShape(body, true, held);
        LosingIsShape(steps[1..], inside, true);
    }
  }

  /** At level zero nothing but zero is recorded from here on; the first measured call discards
      the segment. */
  lemma {:induction false} ZeroRecordsZero(steps: seq<Step>, since: seq<nat>, inside: bool)
    requires since != [] && since[|since| - 1] == 0
    ensures AllZero(KeptLevels(Zero(steps), since))
    ensures AllZero(since) || HasObserve(steps) ==> AllZero(SegmentAfter(Zero(steps), since))
    ensures inside && HasObserve(steps) ==> forall x :: x in since ==> x in DiscardedLevels(Zero(steps), since, inside)
    decreases steps
  {
    if steps != [] {
      var zero := Zero(steps);
      var next := SegmentAfterStep(zero[0], since);
      assert zero[1..] == Zero(steps[1..]) && next[|next| - 1] in next;
      if steps[0].Observe? {
        ZeroRecordsZero(steps[0].body, [0], true);
      }
      ZeroRecordsZero(steps[1..], next, inside);
    }
  }

  lemma {:induction false} LostStart(steps: seq<Step>, inside: bool, held: bool, since: seq<nat>)
    requires since != [] && since[|since| - 1] == 1 && StartLost(steps, inside, held)
    ensures 1 in DiscardedLevels(Zero(steps), since, inside)
    ensures AllZero(KeptLevels(Zero(steps), since)) && AllZero(SegmentAfter(Zero(steps), since))
    decreases steps
  {
    var zero := Zero(steps);
    var next := SegmentAfterStep(zero[0], since);
    assert zero[1..] == Zero(steps[1..]) && next[|next| - 1] in next;
    if steps[0].Observe? {
      LostStart(steps[0].body, true, held, [1]);
    }
    ZeroRecordsZero(steps[1..], next, inside);
  }

  /** A measured call that starts with something hidden finds the level hidden. */
  lemma {:induction false} HiddenNeedsObserve(steps: seq<Step>, held: bool)
    requires !NothingHidden(steps, true, true, held)
    ensures HasObserve(steps)
  {
    if steps[0].Set? {
      HiddenNeedsObserve(steps[1..], false);
    }
  }

  lemma {:induction false} LosingDiscards(steps: seq<Step>, inside: bool, held: bool, since: seq<nat>)
    requires since != [] && since[|since| - 1] == StartLevel(steps, inside, held)
    requires !NothingHidden(steps, inside, false, held)
    ensures var lost := Losing(steps, inside, held);
            && 1 in DiscardedLevels(lost, since, inside)
            && AllZero(KeptLevels(lost, since)) && AllZero(SegmentAfter(lost, since))
    decreases steps
  {
    if StartLost(steps, inside, held) {
      LostStart(steps, inside, held, since);
    } else {
      var lost := Losing(steps, inside, held);
      var next := SegmentAfterStep(lost[0], since);
      assert next[|next| - 1] in next;
      match steps[0]
      case Set(_) =>
        assert lost[1..] == Losing(steps[1..], inside, false);
        if inside && !held {
          HiddenNeedsObserve(steps[1..], false);
        }
        LosingDiscards(steps[1..], inside, false, next);
      case Observe(_, body, _) =>
        if NothingHidden(body, true, false, held) {
          assert lost[1..] == Losing(steps[1..], inside, true);
          ZeroRecordsZero(body, [0], true);
          HeldStartIsKept(steps[1..], inside);
          LosingDiscards(steps[1..], inside, true, next);
        } else {
          assert lost[1..] == Zero(steps[1..]);
          LosingDiscards(body, true, held, [0]);
          ZeroRecordsZero(steps[1..], next, inside);
        }
    }
  }

  lemma {:induction false} HeldStartIsKept(steps: seq<Step>, inside: bool)
    ensures !StartLost(steps, inside, true)
  {
    if steps != [] && steps[0].Observe? {
      HeldStartIsKept(steps[0].body, true);
    }
  }

  lemma HidingLosesAPeak(steps: seq<Step>, d: Device)
    requires !NothingHidden(steps, false, false, false) && d.inUse == StartLevel(steps, false, false)
    ensures RecordedPeak(Losing(steps, false, false), d) < TruePeak(Losing(steps, false, false), d)
  {
    LosingDiscards(steps, false, false, [d.inUse]);
    RecordedPeakIsTrueIff(Losing(steps, false, false), d);
  }

  /** Flat measured calls hide nothing, so `maximum_peak_allocated` is the true maximum over
      all observed instants, resets and failures notwithstanding. */
  lemma FlatPeakIsTrue(steps: seq<Step>, d: Device)
    requires Flat(steps)
    ensures RecordedPeak(steps, d) == TruePeak(steps, d)
  {
    FlatHidesNothing(steps, false);
    NothingHiddenPeakIsTrue(steps, d);
  }

  lemma {:induction false} FlatHidesNothing(steps: seq<Step>, held: bool)
    requires Flat(steps)
    ensures NothingHidden(steps, false, false, held)
  {
    if steps != [] {
      FlatHidesNothing(steps[1..], steps[0].Observe?);
      if steps[0].Observe? {
        AllocationsHideNothing(steps[0].body, false, held);
      }
    }
  }

  lemma {:induction false} AllocationsHideNothing(steps: seq<Step>, hidden: bool, held: bool)
    requires forall s :: s in steps ==> s.Set?
    ensures NothingHidden(steps, true, hidden, held)
  {
    if steps != [] {
      AllocationsHideNothing(steps[1..], hidden || !held, false);
    }
  }

  /** Nesting must be excluded: two allocations and then a measured call, inside another, can
      lose the peak between them. */
  lemma NestedPeakCanBeLost()
    ensures exists steps: seq<Step>, d: Device :: !Flat(steps) && RecordedPeak(steps, d) < TruePeak(steps, d)
  {
    var body := [Set(0), Set(0), Observe("inner", [], true)];
    var steps := [Observe("outer", body, true)];
    assert body[1..][1..] == [Observe("inner", [], true)] && body[1..][0] == Set(0);
    assert !NothingHidden(body, true, false, false);
    var lost, d := Losing(steps, false, false), Device(StartLevel(steps, false, false), 0);
    HidingLosesAPeak(steps, d);
    if Flat(lost) {
      FlatPeakIsTrue(lost, d);
    }
  }
}

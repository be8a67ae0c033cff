/** The fixed-trace statistics: PSS and CPSS per example, match-rate curves per fraction, and
    why their means agree (src/kvcot/analysis/fixed_trace.py). */
module FixedTrace {
  import opened Prelude
  import opened ScreenValidity

  // ---------------------------------------------------------------- records

  /** Probe fractions in eighths of the thinking span. */
  const SCORED: seq<int> := [1, 2, 3, 4, 5, 6, 7]
  const ALL_FRACTIONS: seq<int> := [0, 1, 2, 3, 4, 5, 6, 7, 8]
  const ANCHOR := 8

  /** One probe record; `matches` is absent when no answer could be compared with the anchor. */
  datatype Probe = Probe(
    matches: Option<bool>,
    boxed: bool,
    anchorCorrect: bool,
    compressed: bool,
    retention: Option<real>,
    evictedDuringAnswer: bool)

  type Group = map<int, Probe>

  /** The probes of one replay policy: base ids in file order, and each one's group. */
  datatype Probes = Probes(order: seq<string>, groups: map<string, Group>) {
    predicate Valid() { Distinct(order) && Elements(order) == groups.Keys }
  }

  datatype Base = Base(recordId: string, correct: bool, hitCap: bool, thinkParsed: bool)

  // ---------------------------------------------------------------- PSS and CPSS

  /** `matches_f1_anchor_answer` at a fraction, if the probe and its comparison are there. */
  function MatchAt(group: Group, f: int): Option<bool> {
    if f in group then group[f].matches else None
  }

  predicate AllDefined(group: Group, fractions: seq<int>) {
    forall i :: 0 <= i < |fractions| ==> MatchAt(group, fractions[i]).Some?
  }

  /** 1 for a probe that agrees with the anchor. */
  function Agreement(group: Group, f: int): real { if MatchAt(group, f) == Some(true) then 1.0 else 0.0 }

  /** 1 for a probe that disagrees with the anchor. */
  function Mismatch(group: Group): int -> real { f => 1.0 - Agreement(group, f) }

  /** The mean mismatch over the fractions, defined only if every one of them is. */
  function MeanMismatch(group: Group, fractions: seq<int>): Option<real> {
    if fractions != [] && AllDefined(group, fractions) then Some(Mean(SumOf(fractions, Mismatch(group)), |fractions|)) else None
  }

  /** The loop shared by `compute_pss` and `compute_cpss`. */
  method MeanOverFractions(group: Group, fractions: seq<int>) returns (mean: Option<real>)
    ensures mean == MeanMismatch(group, fractions)
  {
    var sum := 0.0;
    for n := 0 to |fractions|
      invariant AllDefined(group, fractions[..n])
      invariant sum == SumOf(fractions[..n], Mismatch(group))
    {
      var f := fractions[n];
      assert fractions[..n + 1] == fractions[..n] + [f];
      if f !in group { return None; }
      var m := group[f].matches;
      if m.None? { return None; }
      SumOfSnoc(fractions[..n], f, Mismatch(group));
      sum := sum + if m.value then 0.0 else 1.0;
    }
    assert fractions[..|fractions|] == fractions;
    if fractions == [] { return None; }
    mean := Some(Mean(sum, |fractions|));
  }

  predicate IsBoxed(group: Group) { ANCHOR in group && group[ANCHOR].boxed }

  /** `_pss_for_side`: none without a boxed anchor. */
  function PssForSide(group: Group): Option<real> {
    if IsBoxed(group) then MeanMismatch(group, SCORED) else None
  }

  /** `compute_cpss`: none with fewer active fractions than required. */
  function Cpss(group: Group, active: seq<int>, minActive: nat): Option<real> {
    if |active| < minActive then None else MeanMismatch(group, active)
  }

  function Minus(a: Option<real>, b: Option<real>): Option<real> {
    if a.Some? && b.Some? then Some(a.value - b.value) else None
  }

  // ---------------------------------------------------------------- pairs

  function RetentionAt(group: Group, f: int): Option<real> { if f in group then group[f].retention else None }

  predicate Clears(group: Group, f: int, ceiling: real) {
    RetentionAt(group, f).Some? && RetentionAt(group, f).value <= ceiling
  }

  /** The scored fractions at which R-KV itself had compressed enough. */
  function ActiveFractions(rkv: Group, ceiling: real): seq<int> {
    Filter(SCORED, f => Clears(rkv, f, ceiling))
  }

  predicate Eligible(base: Base, full: Group, rkv: Group, settings: Settings) {
    && IsBoxed(full) && IsBoxed(rkv)
    && full[ANCHOR].anchorCorrect && rkv[ANCHOR].anchorCorrect
    && AllDefined(full, SCORED) && AllDefined(rkv, SCORED)
    && rkv[ANCHOR].compressed
    && (forall f :: f in SCORED + [ANCHOR] && f in rkv ==> !rkv[f].evictedDuringAnswer)
    && base.correct && !base.hitCap && base.thinkParsed
    && (settings.requireMeaningfulCompression ==>
          && Clears(rkv, ANCHOR, settings.meaningfulRetentionCeiling)
          && |ActiveFractions(rkv, settings.meaningfulRetentionCeiling)| >= settings.minMeaningfullyCompressedScoredFractions)
  }

  datatype Pair = Pair(
    baseId: string,
    eligible: bool,
    pssFull: Option<real>,
    pssRkv: Option<real>,
    deltaPss: Option<real>,
    deltaCpss: Option<real>)

  function PairOf(base: Base, full: Group, rkv: Group, settings: Settings): Pair {
    var eligible := Eligible(base, full, rkv, settings);
    var active := ActiveFractions(rkv, settings.meaningfulRetentionCeiling);
    var minActive := settings.minCompressedScoredFractionsForCpss;
    Pair(base.recordId, eligible, PssForSide(full), PssForSide(rkv),
         if eligible then Minus(PssForSide(full), PssForSide(rkv)) else None,
         if eligible then Minus(Cpss(full, active, minActive), Cpss(rkv, active, minActive)) else None)
  }

  predicate Shared(id: string, full: Probes, rkv: Probes) { id in full.groups && id in rkv.groups }

  function PairIfShared(full: Probes, rkv: Probes, settings: Settings): Base -> seq<Pair> {
    (base: Base) => if Shared(base.recordId, full, rkv)
            then [PairOf(base, full.groups[base.recordId], rkv.groups[base.recordId], settings)] else []
  }

  /** `build_fixed_trace_pairs`: one pair per base record both policies have probed, in order. */
  method BuildFixedTracePairs(bases: seq<Base>, full: Probes, rkv: Probes, settings: Settings) returns (pairs: seq<Pair>)
    ensures pairs == FlatMap(bases, PairIfShared(full, rkv, settings))
  {
    pairs := [];
    for n := 0 to |bases|
      invariant pairs == FlatMap(bases[..n], PairIfShared(full, rkv, settings))
    {
      var base := bases[n];
      assert bases[..n + 1] == bases[..n] + [base];
      FlatMapSnoc(bases[..n], base, PairIfShared(full, rkv, settings));
      if Shared(base.recordId, full, rkv) {
        pairs := pairs + [PairOf(base, full.groups[base.recordId], rkv.groups[base.recordId], settings)];
      }
    }
    assert bases[..|bases|] == bases;
  }

  // ---------------------------------------------------------------- curves

  /** The ids that have a defined comparison at a fraction. */
  function Comparable(probes: Probes, f: int): string -> bool {
    id => id in probes.groups && MatchAt(probes.groups[id], f).Some?
  }

  function AgreementAt(probes: Probes, f: int): string -> real {
    id => if id in probes.groups then Agreement(probes.groups[id], f) else 0.0
  }

  /** The match rate among some of the ids, none if nothing is comparable. */
  function MatchRate(probes: Probes, ids: seq<string>, f: int): Option<real> {
    var comparable := Filter(ids, Comparable(probes, f));
    if comparable == [] then None else Some(Mean(SumOf(comparable, AgreementAt(probes, f)), |comparable|))
  }

  /** `fixed_trace_curve_by_fraction_eligible_only` at one fraction. */
  method CurveEligibleOnlyAt(probes: Probes, eligible: set<string>, f: int) returns (rate: Option<real>)
    requires probes.Valid()
    ensures rate == MatchRate(probes, Filter(probes.order, In(eligible)), f)
  {
    hide Filter, SumOf;
    var count, matching := 0, 0.0;
    ghost var seen, comparable: seq<string> := [], [];
    NothingSeen(eligible, Comparable(probes, f), AgreementAt(probes, f));
    for n := 0 to |probes.order|
      invariant seen == Filter(probes.order[..n], In(eligible))
      invariant comparable == Filter(seen, Comparable(probes, f))
      invariant count == |comparable| && matching == SumOf(comparable, AgreementAt(probes, f))
    {
      var id := probes.order[n];
      assert probes.order[..n + 1] == probes.order[..n] + [id];
      FilterSnoc(probes.order[..n], id, In(eligible));
      assert id in Elements(probes.order);
      if id in eligible {
        FilterSnoc(seen, id, Comparable(probes, f));
        if f in probes.groups[id] {
          var m := probes.groups[id][f].matches;
          if m.Some? {
            SumOfSnoc(comparable, id, AgreementAt(probes, f));
            AgreementIs(probes, id, f);
            count, matching := count + 1, matching + if m.value then 1.0 else 0.0;
            comparable := comparable + [id];
          }
        }
        seen := seen + [id];
      }
    }
    assert probes.order[..|probes.order|] == probes.order;
    rate := if count == 0 then None else Some(Mean(matching, count));
  }

  lemma AgreementIs(probes: Probes, id: string, f: int)
    requires id in probes.groups
    ensures AgreementAt(probes, f)(id) == if MatchAt(probes.groups[id], f) == Some(true) then 1.0 else 0.0
    ensures AgreementAt(probes, f)(id) == 1.0 - Mismatch(probes.groups[id])(f)
  {
  }

  /** A match rate is the share of the comparable ids whose probe agreed. */
  lemma MatchRateCounts(probes: Probes, ids: seq<string>, f: int, comparable: set<string>, matching: set<string>)
    requires Distinct(ids)
    requires forall id :: id in comparable <==> id in ids && id in probes.groups && f in probes.groups[id] && probes.groups[id][f].matches.Some?
    requires forall id :: id in matching <==> id in comparable && probes.groups[id][f].matches == Some(true)
    ensures MatchRate(probes, ids, f) == if comparable == {} then None else Some(|matching| as real / |comparable| as real)
  {
    var matches := (id: string) => Comparable(probes, f)(id) && AgreementAt(probes, f)(id) == 1.0;
    FilteredCounts(probes, ids, f, matches);
    CountIsCardinality(ids, Comparable(probes, f), comparable);
    CountIsCardinality(ids, matches, matching);
    hide Filter, SumOf, Count, Distinct, Comparable, AgreementAt;
  }

  lemma {:induction false} FilteredCounts(probes: Probes, ids: seq<string>, f: int, matches: string -> bool)
    requires forall id :: matches(id) <==> Comparable(probes, f)(id) && AgreementAt(probes, f)(id) == 1.0
    ensures |Filter(ids, Comparable(probes, f))| == Count(ids, Comparable(probes, f))
    ensures SumOf(Filter(ids, Comparable(probes, f)), AgreementAt(probes, f)) == Count(ids, matches) as real
  {
    if ids != [] {
      var rest, last := ids[..|ids| - 1], ids[|ids| - 1];
      FilteredCounts(probes, rest, f, matches);
      SumOfSnoc(Filter(rest, Comparable(probes, f)), last, AgreementAt(probes, f));
    }
  }

  function In(ids: set<string>): string -> bool { id => id in ids }

  lemma NothingSeen(eligible: set<string>, p: string -> bool, f: string -> real)
    ensures Filter([], In(eligible)) == [] && Filter([], p) == [] && SumOf([], f) == 0.0
  {
  }

  // ---------------------------------------------------------------- the decision's means

  function EligiblePairs(pairs: seq<Pair>): seq<Pair> { Filter(pairs, (p: Pair) => p.eligible) }

  function IdsOf(pairs: seq<Pair>): seq<string> { seq(|pairs|, i requires 0 <= i < |pairs| => pairs[i].baseId) }

  function DeltaOf(): Pair -> seq<real> { (p: Pair) => if p.deltaPss.Some? then [p.deltaPss.value] else [] }

  /** The defined deltas among the pairs, in order. */
  function Deltas(pairs: seq<Pair>): seq<real> { FlatMap(pairs, DeltaOf()) }

  function Itself(): real -> real { (d: real) => d }

  /** `mean_delta_pss`: none without a defined delta. */
  function MeanDeltaPss(pairs: seq<Pair>): Option<real> {
    var deltas := Deltas(EligiblePairs(pairs));
    if deltas == [] then None else Some(Mean(SumOf(deltas, Itself()), |deltas|))
  }

  function CanonicalPairs(bases: seq<Base>, full: Probes, rkv: Probes, settings: Settings): seq<Pair> {
    FlatMap(bases, PairIfShared(full, rkv, settings))
  }

  function EligibleIds(pairs: seq<Pair>): seq<string> { IdsOf(EligiblePairs(pairs)) }

  /** The eligible ids in a probe file's own order. */
  function EligibleIn(probes: Probes, pairs: seq<Pair>): seq<string> {
    Filter(probes.order, In(Elements(EligibleIds(pairs))))
  }

  /** Match-rate difference at a fraction, R-KV minus FullKV, among the eligible ids. */
  function RateDelta(full: Probes, rkv: Probes, pairs: seq<Pair>): int -> real {
    f => var d := Minus(MatchRate(rkv, EligibleIn(rkv, pairs), f), MatchRate(full, EligibleIn(full, pairs), f));
      if d.Some? then d.value else 0.0
  }

  // ---------------------------------------------------------------- pairs and their ids

  function BaseIds(bases: seq<Base>): seq<string> { seq(|bases|, i requires 0 <= i < |bases| => bases[i].recordId) }

  ghost predicate ComesFrom(p: Pair, bases: seq<Base>, full: Probes, rkv: Probes, settings: Settings) {
    exists base :: base in bases && Shared(base.recordId, full, rkv)
                   && p == PairOf(base, full.groups[base.recordId], rkv.groups[base.recordId], settings)
  }

  predicate DistinctIds(pairs: seq<Pair>) { forall i, j :: 0 <= i < j < |pairs| ==> pairs[i].baseId != pairs[j].baseId }

  lemma {:induction false} PairsComeFromBases(bases: seq<Base>, full: Probes, rkv: Probes, settings: Settings)
    requires Distinct(BaseIds(bases))
    ensures forall p :: p in CanonicalPairs(bases, full, rkv, settings) ==> ComesFrom(p, bases, full, rkv, settings)
    ensures DistinctIds(CanonicalPairs(bases, full, rkv, settings))
  {
    if bases != [] {
      var rest, last := bases[..|bases| - 1], bases[|bases| - 1];
      assert BaseIds(rest) == BaseIds(bases)[..|rest|];
      PairsComeFromBases(rest, full, rkv, settings);
      var before := CanonicalPairs(rest, full, rkv, settings);
      forall i | 0 <= i < |before|
        ensures before[i].baseId != last.recordId && ComesFrom(before[i], bases, full, rkv, settings)
      {
        assert before[i] in before;
        var base :| base in rest && Shared(base.recordId, full, rkv)
                    && before[i] == PairOf(base, full.groups[base.recordId], rkv.groups[base.recordId], settings);
        var k :| 0 <= k < |rest| && rest[k] == base;
        assert BaseIds(bases)[k] == base.recordId && BaseIds(bases)[|rest|] == last.recordId;
      }
      if Shared(last.recordId, full, rkv) {
        var p := PairOf(last, full.groups[last.recordId], rkv.groups[last.recordId], settings);
        assert ComesFrom(p, bases, full, rkv, settings);
        hide ComesFrom;
        assert CanonicalPairs(bases, full, rkv, settings) == before + [p];
      } else {
        assert CanonicalPairs(bases, full, rkv, settings) == before;
      }
    }
  }

  lemma {:induction false} FilteredIdsDistinct(pairs: seq<Pair>)
    requires DistinctIds(pairs)
    ensures DistinctIds(EligiblePairs(pairs))
  {
    if pairs != [] {
      FilteredIdsDistinct(pairs[..|pairs| - 1]);
    }
  }

  /** How much more often R-KV agrees with its anchor than FullKV does, example by fraction. */
  function Gain(full: Probes, rkv: Probes): (string, int) -> real {
    (id, f) => AgreementAt(rkv, f)(id) - AgreementAt(full, f)(id)
  }

  /** Every eligible pair has a defined delta: the R-KV minus FullKV agreement, averaged over
      the seven scored fractions. */
  lemma EligiblePairHasDelta(base: Base, full: Probes, rkv: Probes, settings: Settings)
    requires Shared(base.recordId, full, rkv)
    ensures var p := PairOf(base, full.groups[base.recordId], rkv.groups[base.recordId], settings);
            p.eligible ==>
              && AllDefined(full.groups[base.recordId], SCORED) && AllDefined(rkv.groups[base.recordId], SCORED)
              && p.deltaPss == Some(Mean(Row(Gain(full, rkv), SCORED)(base.recordId), |SCORED|))
  {
    var f, r := full.groups[base.recordId], rkv.groups[base.recordId];
    if Eligible(base, f, r, settings) {
      MeansDifferByGain(full, rkv, base.recordId);
      hide MeanMismatch, Row, Gain, ActiveFractions, Cpss;
    }
  }

  lemma MeansDifferByGain(full: Probes, rkv: Probes, id: string)
    requires Shared(id, full, rkv) && AllDefined(full.groups[id], SCORED) && AllDefined(rkv.groups[id], SCORED)
    ensures Minus(MeanMismatch(full.groups[id], SCORED), MeanMismatch(rkv.groups[id], SCORED))
         == Some(Mean(Row(Gain(full, rkv), SCORED)(id), |SCORED|))
  {
    var f, r := full.groups[id], rkv.groups[id];
    forall k
      ensures Mismatch(f)(k) == Mismatch(r)(k) + Across(Gain(full, rkv), id)(k)
    {
      GainIs(full, rkv, id, k);
    }
    MismatchDifference(f, r, Across(Gain(full, rkv), id));
    hide Mismatch, Gain, SumOf, AllDefined, Mean;
  }

  lemma GainIs(full: Probes, rkv: Probes, id: string, f: int)
    requires Shared(id, full, rkv)
    ensures Across(Gain(full, rkv), id)(f) == Agreement(rkv.groups[id], f) - Agreement(full.groups[id], f)
  {
    AgreementIs(full, id, f);
    AgreementIs(rkv, id, f);
    assert Gain(full, rkv)(id, f) == AgreementAt(rkv, f)(id) - AgreementAt(full, f)(id);
  }

  lemma MismatchDifference(f: Group, r: Group, gain: int -> real)
    requires forall k :: Mismatch(f)(k) == Mismatch(r)(k) + gain(k)
    ensures Mean(SumOf(SCORED, Mismatch(f)), |SCORED|) - Mean(SumOf(SCORED, Mismatch(r)), |SCORED|) == Mean(SumOf(SCORED, gain), |SCORED|)
  {
    SumOfSum(SCORED, Mismatch(f), Mismatch(r), gain);
    MeanOfSum(SumOf(SCORED, Mismatch(f)), SumOf(SCORED, Mismatch(r)), |SCORED|);
    hide Mean;
  }

  // ---------------------------------------------------------------- CPSS beside PSS

  /** The active fractions are a set in the code: the order they are visited in is immaterial. */
  lemma MeanMismatchIgnoresOrder(group: Group, xs: seq<int>, ys: seq<int>)
    requires Distinct(xs) && Distinct(ys) && Elements(xs) == Elements(ys)
    ensures MeanMismatch(group, xs) == MeanMismatch(group, ys)
  {
    SumOfSameElements(xs, ys, Mismatch(group));
    DistinctIffCardinality(xs);
    DistinctIffCardinality(ys);
    hide SumOf, Mean, Distinct;
    assert forall x :: x in xs <==> x in Elements(xs);
    assert forall y :: y in ys <==> y in Elements(ys);
    forall i | 0 <= i < |xs|
      ensures xs[i] in ys
    {
    }
    forall i | 0 <= i < |ys|
      ensures ys[i] in xs
    {
    }
  }

  /** Where every scored fraction is active, CPSS is PSS. */
  lemma CpssIsPssWhenAllActive(group: Group, rkv: Group, ceiling: real, minActive: nat)
    requires IsBoxed(group) && minActive <= |SCORED|
    requires forall f :: f in SCORED ==> Clears(rkv, f, ceiling)
    ensures Cpss(group, ActiveFractions(rkv, ceiling), minActive) == PssForSide(group)
  {
    FilterKeepsAll(SCORED, f => Clears(rkv, f, ceiling));
  }

  /** An eligible pair has a CPSS delta exactly when enough scored fractions were active. */
  lemma EligiblePairHasCpssIff(base: Base, full: Group, rkv: Group, settings: Settings)
    requires settings.Valid() && Eligible(base, full, rkv, settings)
    ensures PairOf(base, full, rkv, settings).deltaCpss.Some? <==>
              |ActiveFractions(rkv, settings.meaningfulRetentionCeiling)| >= settings.minCompressedScoredFractionsForCpss
  {
    var active := ActiveFractions(rkv, settings.meaningfulRetentionCeiling);
    forall i | 0 <= i < |active|
      ensures MatchAt(full, active[i]).Some? && MatchAt(rkv, active[i]).Some?
    {
      assert active[i] in SCORED;
      var k :| 0 <= k < |SCORED| && SCORED[k] == active[i];
      assert MatchAt(full, SCORED[k]).Some? && MatchAt(rkv, SCORED[k]).Some?;
    }
    hide ActiveFractions, SumOf, Mean;
  }

  // ---------------------------------------------------------------- pairs, told from the probes

  predicate Missed(group: Group, f: int) { MatchAt(group, f).Some? && !MatchAt(group, f).value }

  /** The scored fractions at which a probe exists and disagreed with its anchor. */
  ghost predicate AreMisses(group: Group, misses: set<int>) {
    forall f :: f in misses <==> 1 <= f <= 7 && f in group && group[f].matches.Some? && !group[f].matches.value
  }

  /** The scored fractions at which R-KV's measured retention cleared the ceiling. */
  ghost predicate AreActive(rkv: Group, ceiling: real, active: set<int>) {
    forall f :: f in active <==> 1 <= f <= 7 && f in rkv && rkv[f].retention.Some? && rkv[f].retention.value <= ceiling
  }

  /** Every scored probe is there and could be compared. */
  ghost predicate FullyCompared(group: Group) {
    forall f :: 1 <= f <= 7 ==> f in group && group[f].matches.Some?
  }

  /** A mean mismatch over some fractions counts the probes that disagreed. */
  lemma MeanMismatchCounts(group: Group, fractions: seq<int>, misses: set<int>)
    requires Distinct(fractions) && fractions != [] && AllDefined(group, fractions)
    requires forall f :: f in misses <==> f in fractions && Missed(group, f)
    ensures MeanMismatch(group, fractions) == Some(|misses| as real / |fractions| as real)
  {
    var miss := (f: int) => Missed(group, f);
    MismatchesCounted(group, fractions, miss);
    forall f
      ensures f in misses <==> f in fractions && miss(f)
    {
    }
    CountIsCardinality(fractions, miss, misses);
    hide SumOf, Count, Distinct, Mismatch;
  }

  lemma {:induction false} MismatchesCounted(group: Group, fractions: seq<int>, miss: int -> bool)
    requires AllDefined(group, fractions) && forall f :: miss(f) <==> Missed(group, f)
    ensures SumOf(fractions, Mismatch(group)) == Count(fractions, miss) as real
  {
    if fractions != [] {
      var rest, last := fractions[..|fractions| - 1], fractions[|fractions| - 1];
      assert forall i :: 0 <= i < |rest| ==> MatchAt(group, fractions[i]).Some?;
      MismatchesCounted(group, rest, miss);
      assert last == fractions[|rest|] && MatchAt(group, last).Some?;
      var agrees := MatchAt(group, last).value;
      assert MatchAt(group, last) == Some(agrees) && Mismatch(group)(last) == if miss(last) then 1.0 else 0.0;
    }
  }

  lemma ScoredAre()
    ensures forall f :: f in SCORED <==> 1 <= f <= 7
    ensures Distinct(SCORED) && |SCORED| == 7
  {
    assert forall i :: 0 <= i < 7 ==> SCORED[i] == i + 1;
  }

  lemma ComparedIff(group: Group)
    ensures AllDefined(group, SCORED) <==> FullyCompared(group)
  {
    assert forall i :: 0 <= i < 7 ==> SCORED[i] == i + 1;
    forall f | 1 <= f <= 7
      ensures AllDefined(group, SCORED) ==> f in group && group[f].matches.Some?
    {
      assert SCORED[f - 1] == f;
    }
  }

  /** Which pairs are eligible: both anchors boxed and correct, every scored probe compared on both
      sides, R-KV compressed at the full trace and never while answering, a clean base record, and
      enough meaningful compression where that is required. */
  lemma EligibleIff(base: Base, full: Group, rkv: Group, settings: Settings, active: set<int>)
    requires AreActive(rkv, settings.meaningfulRetentionCeiling, active)
    ensures PairOf(base, full, rkv, settings).eligible <==>
              && 8 in full && full[8].boxed && full[8].anchorCorrect && 8 in rkv && rkv[8].boxed && rkv[8].anchorCorrect
              && FullyCompared(full) && FullyCompared(rkv)
              && rkv[8].compressed && (forall f :: 1 <= f <= 8 ==> !(f in rkv && rkv[f].evictedDuringAnswer))
              && base.correct && !base.hitCap && base.thinkParsed
              && (settings.requireMeaningfulCompression ==>
                   && rkv[8].retention.Some? && rkv[8].retention.value <= settings.meaningfulRetentionCeiling
                   && |active| >= settings.minMeaningfullyCompressedScoredFractions)
  {
    ComparedIff(full);
    ComparedIff(rkv);
    ActiveAre(rkv, settings.meaningfulRetentionCeiling, active);
    ScoredAre();
    assert forall f :: f in SCORED + [ANCHOR] <==> 1 <= f <= 8;
    hide AllDefined, ActiveFractions, FullyCompared, AreActive;
  }

  lemma ActiveAre(rkv: Group, ceiling: real, active: set<int>)
    requires AreActive(rkv, ceiling, active)
    ensures Distinct(ActiveFractions(rkv, ceiling)) && |ActiveFractions(rkv, ceiling)| == |active|
    ensures forall f :: f in ActiveFractions(rkv, ceiling) <==> f in active
  {
    ScoredAre();
    var found := ActiveFractions(rkv, ceiling);
    DistinctIffCardinality(found);
    forall f
      ensures f in found <==> f in active
    {
      if f in SCORED && Clears(rkv, f, ceiling) {
        var i :| 0 <= i < |SCORED| && SCORED[i] == f;
        assert SCORED[i] in found;
      }
    }
    assert forall f :: f in Elements(found) <==> f in found;
    assert Elements(found) == active;
  }

  /** What a pair reports: each side's PSS is the share of scored fractions that disagreed with its
      boxed anchor, and an eligible pair's deltas are FullKV's share minus R-KV's, over the seven
      scored fractions and over the active ones. */
  lemma PairReports(base: Base, full: Group, rkv: Group, settings: Settings, active: set<int>, missesFull: set<int>, missesRkv: set<int>)
    requires settings.Valid() && AreActive(rkv, settings.meaningfulRetentionCeiling, active)
    requires AreMisses(full, missesFull) && AreMisses(rkv, missesRkv)
    ensures var p := PairOf(base, full, rkv, settings);
            && p.baseId == base.recordId
            && p.pssFull == (if 8 in full && full[8].boxed && FullyCompared(full) then Some(|missesFull| as real / 7.0) else None)
            && p.pssRkv == (if 8 in rkv && rkv[8].boxed && FullyCompared(rkv) then Some(|missesRkv| as real / 7.0) else None)
            && p.deltaPss == (if p.eligible then Some(|missesFull| as real / 7.0 - |missesRkv| as real / 7.0) else None)
            && p.deltaCpss ==
                 (if p.eligible && |active| >= settings.minCompressedScoredFractionsForCpss
                  then Some(|missesFull * active| as real / |active| as real - |missesRkv * active| as real / |active| as real)
                  else None)
  {
    hide ActiveFractions, Cpss, PssForSide, FullyCompared, AreActive, AreMisses, Eligible;
    PssCounts(full, missesFull);
    PssCounts(rkv, missesRkv);
    EligibleIsCompared(base, full, rkv, settings);
    if FullyCompared(full) && FullyCompared(rkv) {
      CpssCounts(full, rkv, settings, active, missesFull);
      CpssCounts(rkv, rkv, settings, active, missesRkv);
    }
  }

  lemma EligibleIsCompared(base: Base, full: Group, rkv: Group, settings: Settings)
    ensures Eligible(base, full, rkv, settings) ==>
              8 in full && full[8].boxed && 8 in rkv && rkv[8].boxed && FullyCompared(full) && FullyCompared(rkv)
  {
    ComparedIff(full);
    ComparedIff(rkv);
    hide AllDefined, FullyCompared, ActiveFractions;
  }

  lemma PssCounts(group: Group, misses: set<int>)
    requires AreMisses(group, misses)
    ensures PssForSide(group) == if 8 in group && group[8].boxed && FullyCompared(group) then Some(|misses| as real / 7.0) else None
  {
    ScoredAre();
    ComparedIff(group);
    if AllDefined(group, SCORED) {
      MeanMismatchCounts(group, SCORED, misses);
    }
    hide AllDefined, FullyCompared, SumOf, Distinct;
  }

  lemma CpssCounts(group: Group, rkv: Group, settings: Settings, active: set<int>, misses: set<int>)
    requires settings.Valid() && AreActive(rkv, settings.meaningfulRetentionCeiling, active) && AreMisses(group, misses) && FullyCompared(group)
    ensures Cpss(group, ActiveFractions(rkv, settings.meaningfulRetentionCeiling), settings.minCompressedScoredFractionsForCpss) ==
              if |active| >= settings.minCompressedScoredFractionsForCpss then Some(|misses * active| as real / |active| as real) else None
  {
    var fractions := ActiveFractions(rkv, settings.meaningfulRetentionCeiling);
    ActiveAre(rkv, settings.meaningfulRetentionCeiling, active);
    hide ActiveFractions, Distinct;
    if |active| >= settings.minCompressedScoredFractionsForCpss {
      forall i | 0 <= i < |fractions|
        ensures MatchAt(group, fractions[i]).Some?
      {
        assert fractions[i] in active;
      }
      assert forall f :: f in misses * active <==> f in fractions && Missed(group, f);
      MeanMismatchCounts(group, fractions, misses * active);
    }
  }

  // ---------------------------------------------------------------- exchange of sums

  /** An eligible pair's delta is the gain over the scored fractions; both sides are fully defined. */
  ghost predicate HasGain(p: Pair, full: Probes, rkv: Probes) {
    && Shared(p.baseId, full, rkv)
    && AllDefined(full.groups[p.baseId], SCORED) && AllDefined(rkv.groups[p.baseId], SCORED)
    && p.deltaPss == Some(Mean(Row(Gain(full, rkv), SCORED)(p.baseId), |SCORED|))
  }

  lemma EligiblePairsHaveGain(bases: seq<Base>, full: Probes, rkv: Probes, settings: Settings)
    requires Distinct(BaseIds(bases))
    ensures var eligible := EligiblePairs(CanonicalPairs(bases, full, rkv, settings));
            DistinctIds(eligible) && forall i :: 0 <= i < |eligible| ==> HasGain(eligible[i], full, rkv)
  {
    var pairs := CanonicalPairs(bases, full, rkv, settings);
    var eligible := EligiblePairs(pairs);
    PairsComeFromBases(bases, full, rkv, settings);
    FilteredIdsDistinct(pairs);
    hide HasGain, ComesFrom, CanonicalPairs, Filter;
    forall i | 0 <= i < |eligible|
      ensures HasGain(eligible[i], full, rkv)
    {
      assert eligible[i] in pairs && eligible[i].eligible;
      EligiblePairHasGain(eligible[i], bases, full, rkv, settings);
    }
  }

  lemma EligiblePairHasGain(p: Pair, bases: seq<Base>, full: Probes, rkv: Probes, settings: Settings)
    requires ComesFrom(p, bases, full, rkv, settings) && p.eligible
    ensures HasGain(p, full, rkv)
  {
    var base :| base in bases && Shared(base.recordId, full, rkv)
                && p == PairOf(base, full.groups[base.recordId], rkv.groups[base.recordId], settings);
    EligiblePairHasDelta(base, full, rkv, settings);
    assert p.baseId == base.recordId;
    hide PairOf;
  }

  lemma DeltasSnoc(pairs: seq<Pair>, p: Pair)
    requires p.deltaPss.Some?
    ensures IdsOf(pairs + [p]) == IdsOf(pairs) + [p.baseId] && Deltas(pairs + [p]) == Deltas(pairs) + [p.deltaPss.value]
  {
    FlatMapSnoc(pairs, p, DeltaOf());
  }

  lemma {:induction false} DeltasAddUp(pairs: seq<Pair>, h: string -> real, count: nat)
    requires forall i :: 0 <= i < |pairs| ==> pairs[i].deltaPss == Some(Mean(h(pairs[i].baseId), count))
    ensures |Deltas(pairs)| == |pairs|
    ensures SumOf(Deltas(pairs), Itself()) == Mean(SumOf(IdsOf(pairs), h), count)
  {
    if pairs != [] {
      hide IdsOf, Deltas, Mean, SumOf;
      var rest, last := pairs[..|pairs| - 1], pairs[|pairs| - 1];
      assert pairs == rest + [last];
      DeltasAddUp(rest, h, count);
      OneDeltaMore(rest, last, h, count);
    } else {
      assert IdsOf(pairs) == [] && Deltas(pairs) == [];
    }
  }

  lemma OneDeltaMore(pairs: seq<Pair>, p: Pair, h: string -> real, count: nat)
    requires p.deltaPss == Some(Mean(h(p.baseId), count))
    requires SumOf(Deltas(pairs), Itself()) == Mean(SumOf(IdsOf(pairs), h), count)
    ensures |Deltas(pairs + [p])| == |Deltas(pairs)| + 1
    ensures SumOf(Deltas(pairs + [p]), Itself()) == Mean(SumOf(IdsOf(pairs + [p]), h), count)
  {
    hide IdsOf, Deltas, Mean, SumOf;
    DeltasSnoc(pairs, p);
    SumOfSnoc(IdsOf(pairs), p.baseId, h);
    SumOfSnoc(Deltas(pairs), p.deltaPss.value, Itself());
    MeanOfSum(SumOf(IdsOf(pairs), h), h(p.baseId), count);
  }

  /** With every listed id comparable, a curve point is the mean agreement over those ids, in
      whatever order the probe file has them. */
  lemma CurvePoint(probes: Probes, ids: seq<string>, f: int)
    requires probes.Valid() && Distinct(ids) && ids != []
    requires forall i :: 0 <= i < |ids| ==> Comparable(probes, f)(ids[i])
    ensures MatchRate(probes, Filter(probes.order, In(Elements(ids))), f)
         == Some(Mean(SumOf(ids, AgreementAt(probes, f)), |ids|))
  {
    var listed := Filter(probes.order, In(Elements(ids)));
    ListedAre(probes, ids, listed);
    forall i | 0 <= i < |listed|
      ensures Comparable(probes, f)(listed[i])
    {
      assert listed[i] in Elements(ids);
    }
    FilterKeepsAll(listed, Comparable(probes, f));
    SumOfSameElements(listed, ids, AgreementAt(probes, f));
    DistinctIffCardinality(listed);
    DistinctIffCardinality(ids);
    hide SumOf, Filter, Comparable;
  }

  lemma ListedAre(probes: Probes, ids: seq<string>, listed: seq<string>)
    requires probes.Valid() && listed == Filter(probes.order, In(Elements(ids)))
    requires forall i :: 0 <= i < |ids| ==> ids[i] in probes.groups
    ensures Distinct(listed) && Elements(listed) == Elements(ids)
  {
    forall id | id in Elements(ids)
      ensures id in listed
    {
      assert id in Elements(probes.order);
      var i :| 0 <= i < |probes.order| && probes.order[i] == id;
    }
  }

  /** The two ways of averaging agree: the mean over eligible examples of `pss_full - pss_rkv`
      is the mean over the seven scored fractions of the R-KV minus FullKV match rate among
      those examples, and every one of those rates is defined. */
  lemma MeanDeltaIsMeanOfRateDeltas(bases: seq<Base>, full: Probes, rkv: Probes, settings: Settings)
    requires Distinct(BaseIds(bases)) && full.Valid() && rkv.Valid()
    requires EligiblePairs(CanonicalPairs(bases, full, rkv, settings)) != []
    ensures var pairs := CanonicalPairs(bases, full, rkv, settings);
            && |Deltas(EligiblePairs(pairs))| == |EligiblePairs(pairs)|
            && (forall f :: f in SCORED ==> MatchRate(full, EligibleIn(full, pairs), f).Some? && MatchRate(rkv, EligibleIn(rkv, pairs), f).Some?)
            && MeanDeltaPss(pairs) == Some(Mean(SumOf(SCORED, RateDelta(full, rkv, pairs)), |SCORED|))
  {
    var pairs := CanonicalPairs(bases, full, rkv, settings);
    EligiblePairsHaveGain(bases, full, rkv, settings);
    hide CanonicalPairs, PairIfShared;
    RateDeltasAddUp(full, rkv, pairs);
    DeltasMean(full, rkv, pairs);
    hide SumOf, RateDelta, EligibleIn, MatchRate, Mean;
  }

  lemma DeltasMean(full: Probes, rkv: Probes, pairs: seq<Pair>)
    requires EligiblePairs(pairs) != []
    requires forall i :: 0 <= i < |EligiblePairs(pairs)| ==> HasGain(EligiblePairs(pairs)[i], full, rkv)
    ensures |Deltas(EligiblePairs(pairs))| == |EligiblePairs(pairs)|
    ensures MeanDeltaPss(pairs) == Some(Mean(Mean(SumOf(EligibleIds(pairs), Row(Gain(full, rkv), SCORED)), |SCORED|), |EligiblePairs(pairs)|))
  {
    DeltasAddUp(EligiblePairs(pairs), Row(Gain(full, rkv), SCORED), |SCORED|);
    hide Mean, Row, Gain, SumOf, Filter, Deltas;
  }

  /** The column sums: the rate deltas add up to the same total as the rows. */
  lemma RateDeltasAddUp(full: Probes, rkv: Probes, pairs: seq<Pair>)
    requires full.Valid() && rkv.Valid() && EligiblePairs(pairs) != [] && DistinctIds(EligiblePairs(pairs))
    requires forall i :: 0 <= i < |EligiblePairs(pairs)| ==> HasGain(EligiblePairs(pairs)[i], full, rkv)
    ensures forall f :: f in SCORED ==> MatchRate(full, EligibleIn(full, pairs), f).Some? && MatchRate(rkv, EligibleIn(rkv, pairs), f).Some?
    ensures Mean(SumOf(SCORED, RateDelta(full, rkv, pairs)), |SCORED|)
         == Mean(Mean(SumOf(EligibleIds(pairs), Row(Gain(full, rkv), SCORED)), |SCORED|), |EligiblePairs(pairs)|)
  {
    hide RateDelta, MatchRate, EligibleIn, Gain, Column, Row, HasGain, EligiblePairs, EligibleIds, Mean, SumOf, DistinctIds;
    var ids, n := EligibleIds(pairs), |EligiblePairs(pairs)|;
    forall f | f in SCORED
      ensures MatchRate(full, EligibleIn(full, pairs), f).Some? && MatchRate(rkv, EligibleIn(rkv, pairs), f).Some?
      ensures RateDelta(full, rkv, pairs)(f) == Mean(Column(Gain(full, rkv), ids)(f), n)
    {
      RateDeltaAt(full, rkv, pairs, f);
    }
    ExchangeSums(ids, SCORED, Gain(full, rkv));
    SumOfMeans(SCORED, RateDelta(full, rkv, pairs), Column(Gain(full, rkv), ids), n);
    SwapMeans(SumOf(ids, Row(Gain(full, rkv), SCORED)), |SCORED|, n);
  }

  lemma RateDeltaAt(full: Probes, rkv: Probes, pairs: seq<Pair>, f: int)
    requires full.Valid() && rkv.Valid() && EligiblePairs(pairs) != [] && DistinctIds(EligiblePairs(pairs)) && f in SCORED
    requires forall i :: 0 <= i < |EligiblePairs(pairs)| ==> HasGain(EligiblePairs(pairs)[i], full, rkv)
    ensures MatchRate(full, EligibleIn(full, pairs), f).Some? && MatchRate(rkv, EligibleIn(rkv, pairs), f).Some?
    ensures RateDelta(full, rkv, pairs)(f) == Mean(Column(Gain(full, rkv), EligibleIds(pairs))(f), |EligiblePairs(pairs)|)
  {
    hide HasGain, Gain, Column, Mean, SumOf, MatchRate, Filter;
    EligibleIdsComparable(full, rkv, EligiblePairs(pairs), f);
    RatesAt(full, rkv, EligibleIds(pairs), f);
  }

  lemma EligibleIdsComparable(full: Probes, rkv: Probes, eligible: seq<Pair>, f: int)
    requires f in SCORED && forall i :: 0 <= i < |eligible| ==> HasGain(eligible[i], full, rkv)
    ensures forall i :: 0 <= i < |IdsOf(eligible)| ==> Comparable(full, f)(IdsOf(eligible)[i]) && Comparable(rkv, f)(IdsOf(eligible)[i])
  {
    var k :| 0 <= k < |SCORED| && SCORED[k] == f;
    forall i | 0 <= i < |eligible|
      ensures Comparable(full, f)(eligible[i].baseId) && Comparable(rkv, f)(eligible[i].baseId)
    {
      assert HasGain(eligible[i], full, rkv);
      assert MatchAt(full.groups[eligible[i].baseId], SCORED[k]).Some? && MatchAt(rkv.groups[eligible[i].baseId], SCORED[k]).Some?;
    }
  }

  /** At one fraction, the difference of the two rates is the column of gains over the count. */
  lemma RatesAt(full: Probes, rkv: Probes, ids: seq<string>, f: int)
    requires full.Valid() && rkv.Valid() && ids != [] && Distinct(ids)
    requires forall i :: 0 <= i < |ids| ==> Comparable(full, f)(ids[i]) && Comparable(rkv, f)(ids[i])
    ensures Minus(MatchRate(rkv, Filter(rkv.order, In(Elements(ids))), f), MatchRate(full, Filter(full.order, In(Elements(ids))), f))
         == Some(Mean(Column(Gain(full, rkv), ids)(f), |ids|))
  {
    hide Comparable, Filter, SumOf, In, MatchRate, Mean;
    CurvePoint(full, ids, f);
    CurvePoint(rkv, ids, f);
    SumOfSum(ids, AgreementAt(rkv, f), AgreementAt(full, f), Down(Gain(full, rkv), f));
    MeanOfSum(SumOf(ids, AgreementAt(rkv, f)), SumOf(ids, AgreementAt(full, f)), |ids|);
  }
}

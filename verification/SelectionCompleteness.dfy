/** The completeness check that must pass before a selection is analysed, and what its passing
    is worth to the pairing that follows (src/kvcot/analysis/fixed_trace.py). */
module SelectionCompleteness {
  import opened Prelude
  import opened ScreenValidity
  import opened FixedTrace

  datatype Policy = FullKVPolicy | RKVPolicy

  datatype Problem =
    | ExtraIds(policy: Policy)
    | NotInBaseFile(id: string)
    | NotProbed(policy: Policy, id: string)
    | WrongFractions(policy: Policy, id: string)

  /** Exactly the selected ids, each with exactly the nine fractions. */
  ghost predicate Covers(probes: Probes, selected: set<string>) {
    && probes.groups.Keys == selected
    && forall id :: id in selected && id in probes.groups ==> probes.groups[id].Keys == Elements(ALL_FRACTIONS)
  }

  ghost predicate Complete(selected: set<string>, bases: seq<Base>, full: Probes, rkv: Probes) {
    selected <= Elements(BaseIds(bases)) && Covers(full, selected) && Covers(rkv, selected)
  }

  predicate GroupComplete(probes: Probes, id: string) {
    id in probes.groups && probes.groups[id].Keys == Elements(ALL_FRACTIONS)
  }

  method CheckGroup(policy: Policy, probes: Probes, id: string) returns (problems: seq<Problem>)
    ensures problems == [] <==> GroupComplete(probes, id)
  {
    if id !in probes.groups { return [NotProbed(policy, id)]; }
    if probes.groups[id].Keys != Elements(ALL_FRACTIONS) { return [WrongFractions(policy, id)]; }
    problems := [];
  }

  /** `_verify_selection_completeness`: no problem exactly when the files are complete, so any
      missing or extra id or fraction is rejected. */
  method VerifySelectionCompleteness(sorted: seq<string>, bases: seq<Base>, full: Probes, rkv: Probes) returns (problems: seq<Problem>)
    requires Distinct(sorted)
    ensures problems == [] <==> Complete(Elements(sorted), bases, full, rkv)
  {
    problems := [];
    if full.groups.Keys - Elements(sorted) != {} { problems := problems + [ExtraIds(FullKVPolicy)]; }
    if rkv.groups.Keys - Elements(sorted) != {} { problems := problems + [ExtraIds(RKVPolicy)]; }
    ghost var noExtras := problems == [];
    for n := 0 to |sorted|
      invariant problems == [] <==> noExtras && forall i :: 0 <= i < n ==>
                  sorted[i] in Elements(BaseIds(bases)) && GroupComplete(full, sorted[i]) && GroupComplete(rkv, sorted[i])
    {
      if sorted[n] !in Elements(BaseIds(bases)) {
        problems := problems + [NotInBaseFile(sorted[n])];
      } else {
        var onFull := CheckGroup(FullKVPolicy, full, sorted[n]);
        var onRkv := CheckGroup(RKVPolicy, rkv, sorted[n]);
        problems := problems + onFull + onRkv;
      }
    }
    CompleteIff(sorted, bases, full, rkv);
  }

  lemma CompleteIff(sorted: seq<string>, bases: seq<Base>, full: Probes, rkv: Probes)
    ensures Complete(Elements(sorted), bases, full, rkv) <==>
              && full.groups.Keys - Elements(sorted) == {} && rkv.groups.Keys - Elements(sorted) == {}
              && forall i :: 0 <= i < |sorted| ==>
                   sorted[i] in Elements(BaseIds(bases)) && GroupComplete(full, sorted[i]) && GroupComplete(rkv, sorted[i])
  {
    CoversIff(full, sorted);
    CoversIff(rkv, sorted);
    assert forall id :: id in Elements(sorted) <==> id in sorted;
    hide Covers, GroupComplete;
  }

  lemma CoversIff(probes: Probes, sorted: seq<string>)
    ensures Covers(probes, Elements(sorted)) <==>
              probes.groups.Keys - Elements(sorted) == {} && forall i :: 0 <= i < |sorted| ==> GroupComplete(probes, sorted[i])
  {
    var selected := Elements(sorted);
    assert forall i :: 0 <= i < |sorted| ==> sorted[i] in selected;
    assert forall id :: id in selected ==> id in sorted;
    assert forall id :: id in probes.groups.Keys && id !in selected ==> id in probes.groups.Keys - selected;
    assert probes.groups.Keys == selected ==> probes.groups.Keys - selected == {};
  }

  // ---------------------------------------------------------------- what passing is worth

  /** Spelled out: the selected ids are base records, and exactly they are probed under both policies,
      each at exactly the nine eighths of its span. */
  lemma CompleteSays(selected: set<string>, bases: seq<Base>, full: Probes, rkv: Probes)
    ensures Complete(selected, bases, full, rkv) <==>
              && (forall id :: id in selected ==> exists i :: 0 <= i < |bases| && bases[i].recordId == id)
              && (forall id :: id in full.groups <==> id in selected) && (forall id :: id in rkv.groups <==> id in selected)
              && (forall id, f :: id in selected && id in full.groups && id in rkv.groups ==>
                    && (f in full.groups[id] <==> 0 <= f <= 8) && (f in rkv.groups[id] <==> 0 <= f <= 8))
  {
    hide Covers;
    CoversSays(full, selected);
    CoversSays(rkv, selected);
    BasesNamed(selected, bases);
  }

  lemma BasesNamed(selected: set<string>, bases: seq<Base>)
    ensures selected <= Elements(BaseIds(bases)) <==>
              forall id :: id in selected ==> exists i :: 0 <= i < |bases| && bases[i].recordId == id
  {
    var ids := BaseIds(bases);
    forall id
      ensures id in Elements(ids) <==> exists i :: 0 <= i < |bases| && bases[i].recordId == id
    {
      assert id in Elements(ids) <==> id in ids;
      assert forall i :: 0 <= i < |bases| ==> ids[i] == bases[i].recordId;
    }
  }

  lemma CoversSays(probes: Probes, selected: set<string>)
    ensures Covers(probes, selected) <==>
              && (forall id :: id in probes.groups <==> id in selected)
              && (forall id, f :: id in selected && id in probes.groups ==> (f in probes.groups[id] <==> 0 <= f <= 8))
  {
    assert forall i :: 0 <= i < 9 ==> ALL_FRACTIONS[i] == i;
    assert forall f :: f in Elements(ALL_FRACTIONS) <==> 0 <= f <= 8;
    assert probes.groups.Keys == selected <==> forall id :: id in probes.groups <==> id in selected;
  }

  /** The probes of the selected ids only. */
  function Restrict(probes: Probes, selected: set<string>): Probes {
    Probes(Filter(probes.order, In(selected)), map id | id in probes.groups && id in selected :: probes.groups[id])
  }

  function SelectedBases(bases: seq<Base>, selected: set<string>): seq<Base> {
    Filter(bases, (b: Base) => b.recordId in selected)
  }

  /** On any files, the filters keep just the selected ids, with their probes as they were. */
  lemma FiltersKeepTheSelected(selected: set<string>, bases: seq<Base>, probes: Probes, id: string)
    ensures id in Restrict(probes, selected).groups <==> id in probes.groups && id in selected
    ensures id in Restrict(probes, selected).groups ==> Restrict(probes, selected).groups[id] == probes.groups[id]
    ensures id in Restrict(probes, selected).order <==> id in probes.order && id in selected
    ensures forall b :: b in SelectedBases(bases, selected) <==> b in bases && b.recordId in selected
  {
  }

  /** The filters applied after the check change nothing. */
  lemma FiltersChangeNothing(selected: set<string>, bases: seq<Base>, full: Probes, rkv: Probes)
    requires Complete(selected, bases, full, rkv) && full.Valid() && rkv.Valid()
    ensures Restrict(full, selected) == full && Restrict(rkv, selected) == rkv
  {
    RestrictCovered(full, selected);
    RestrictCovered(rkv, selected);
  }

  lemma RestrictCovered(probes: Probes, selected: set<string>)
    requires probes.Valid() && probes.groups.Keys == selected
    ensures Restrict(probes, selected) == probes
  {
    forall i | 0 <= i < |probes.order|
      ensures In(selected)(probes.order[i])
    {
      assert probes.order[i] in Elements(probes.order);
    }
    FilterKeepsAll(probes.order, In(selected));
    SameMap(probes.groups, selected);
    hide Filter, Distinct;
  }

  lemma SameMap(groups: map<string, Group>, selected: set<string>)
    requires groups.Keys == selected
    ensures (map id | id in groups && id in selected :: groups[id]) == groups
  {
  }

  /** Exactly one pair per selected id: the intersection join has become a bijection. */
  lemma OnePairPerSelectedId(selected: set<string>, bases: seq<Base>, full: Probes, rkv: Probes, settings: Settings)
    requires Complete(selected, bases, full, rkv) && Distinct(BaseIds(bases))
    ensures var pairs := CanonicalPairs(SelectedBases(bases, selected), full, rkv, settings);
            Distinct(IdsOf(pairs)) && Elements(IdsOf(pairs)) == selected && |pairs| == |selected|
  {
    var kept := SelectedBases(bases, selected);
    SelectedIds(bases, selected);
    assert forall b :: b in kept ==> Shared(b.recordId, full, rkv);
    hide Complete, SelectedBases;
    AllSharedAllPaired(kept, full, rkv, settings);
    DistinctIffCardinality(BaseIds(kept));
  }

  lemma {:induction false} SelectedIds(bases: seq<Base>, selected: set<string>)
    requires Distinct(BaseIds(bases))
    ensures Distinct(BaseIds(SelectedBases(bases, selected)))
    ensures Elements(BaseIds(SelectedBases(bases, selected))) == Elements(BaseIds(bases)) * selected
  {
    if bases != [] {
      var rest, last := bases[..|bases| - 1], bases[|bases| - 1];
      var ids := BaseIds(SelectedBases(rest, selected));
      assert BaseIds(bases) == BaseIds(rest) + [last.recordId];
      assert BaseIds(rest) == BaseIds(bases)[..|rest|];
      SelectedIds(rest, selected);
      ElementsSnoc(BaseIds(rest), last.recordId);
      ElementsSnoc(ids, last.recordId);
      assert forall i :: 0 <= i < |rest| ==> BaseIds(bases)[i] == BaseIds(rest)[i] != BaseIds(bases)[|rest|];
      assert last.recordId !in BaseIds(rest);
      hide BaseIds, Distinct, SelectedBases;
      if last.recordId in selected {
        assert BaseIds(SelectedBases(bases, selected)) == ids + [last.recordId];
        assert last.recordId !in Elements(ids);
      } else {
        assert SelectedBases(bases, selected) == SelectedBases(rest, selected);
      }
    }
  }

  lemma {:induction false} AllSharedAllPaired(bases: seq<Base>, full: Probes, rkv: Probes, settings: Settings)
    requires forall i :: 0 <= i < |bases| ==> Shared(bases[i].recordId, full, rkv)
    ensures IdsOf(CanonicalPairs(bases, full, rkv, settings)) == BaseIds(bases)
  {
    if bases != [] {
      var rest, last := bases[..|bases| - 1], bases[|bases| - 1];
      AllSharedAllPaired(rest, full, rkv, settings);
      assert BaseIds(bases) == BaseIds(rest) + [last.recordId];
      var p := PairOf(last, full.groups[last.recordId], rkv.groups[last.recordId], settings);
      assert CanonicalPairs(bases, full, rkv, settings) == CanonicalPairs(rest, full, rkv, settings) + [p];
      assert p.baseId == last.recordId;
    }
  }
}

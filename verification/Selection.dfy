/** Writing the outcome-blind selection of examples, and the loader that must recognise it
    (src/kvcot/cli.py). */
module Selection {
  import opened Prelude
  import opened Sorting
  import opened ScreenValidity
  import Schedule = RkvSchedule

  /** A FullKV base record: what the writer looks at. `offsets` are its cut positions, eighth
      by eighth, from the end of the prompt. */
  datatype BaseRecord = BaseRecord(
    id: string, row: int, correct: bool, hitCap: bool, thinkParsed: bool, prompt: nat, offsets: seq<nat>)

  datatype Candidate = Candidate(id: string, row: int, predictedEligible: bool, selected: bool)

  /** A selection file. Top-level fields may be missing when it is read back. */
  datatype SelectionFile = SelectionFile(
    configSha: Option<string>, baseSha: Option<string>, stageName: Option<string>,
    budget: Option<nat>, divideLength: Option<nat>, maxSelected: Option<int>,
    nRanked: Option<nat>, nPredictedEligible: Option<nat>, nSelected: Option<nat>,
    ids: seq<string>, rows: seq<int>, candidates: seq<Candidate>)

  /** The current stage configuration, lock file and base file. */
  datatype Context = Context(
    configSha: string, stageName: string, budget: Option<nat>, divideLength: nat,
    settings: Settings, scored: set<nat>, baseExists: bool, baseSha: string, baseIds: set<string>)

  function Ids(cs: seq<Candidate>): seq<string> { seq(|cs|, i requires 0 <= i < |cs| => cs[i].id) }

  function Rows(cs: seq<Candidate>): seq<int> { seq(|cs|, i requires 0 <= i < |cs| => cs[i].row) }

  function RowOf(): Candidate -> int { (c: Candidate) => c.row }

  function IsEligible(): Candidate -> bool { (c: Candidate) => c.predictedEligible }

  // ---------------------------------------------------------------- the writer

  predicate Usable(r: BaseRecord) { r.correct && !r.hitCap && r.thinkParsed }

  function Cuts(r: BaseRecord): seq<int> {
    seq(|r.offsets|, k requires 0 <= k < |r.offsets| => r.prompt + r.offsets[k])
  }

  predicate Predicted(r: BaseRecord, budget: nat, ctx: Context)
    requires ctx.divideLength >= 1
  {
    Schedule.PredictedEligible(r.prompt, Cuts(r), ctx.scored, budget, ctx.divideLength,
                               ctx.settings.meaningfulRetentionCeiling, ctx.settings.minMeaningfullyCompressedScoredFractions)
  }

  /** The candidates of the usable records, in file order and not yet marked. */
  function CandidatesOf(records: seq<BaseRecord>, budget: nat, ctx: Context): seq<Candidate>
    requires ctx.divideLength >= 1
  {
    if records == [] then [] else
      var rest, r := CandidatesOf(records[..|records| - 1], budget, ctx), records[|records| - 1];
      if Usable(r) then rest + [Candidate(r.id, r.row, Predicted(r, budget, ctx), false)] else rest
  }

  /** The candidates are the records that are correct, not capped and parsed, each once and in file
      order, predicted eligible by the schedule's rule at their cuts, and unmarked. `from` gives
      their places in the file. */
  lemma {:induction false} CandidatesAre(records: seq<BaseRecord>, budget: nat, ctx: Context) returns (from: seq<nat>)
    requires ctx.divideLength >= 1
    ensures |from| == |CandidatesOf(records, budget, ctx)|
    ensures forall j, k :: 0 <= j < k < |from| ==> from[j] < from[k]
    ensures forall k :: 0 <= k < |from| ==>
              && from[k] < |records| && records[from[k]].correct && !records[from[k]].hitCap && records[from[k]].thinkParsed
              && CandidatesOf(records, budget, ctx)[k] ==
                   Candidate(records[from[k]].id, records[from[k]].row, Predicted(records[from[k]], budget, ctx), false)
    ensures forall i :: 0 <= i < |records| && records[i].correct && !records[i].hitCap && records[i].thinkParsed ==> i in from
  {
    hide Predicted;
    from := [];
    if records != [] {
      var n := |records| - 1;
      from := CandidatesAre(records[..n], budget, ctx);
      if records[n].correct && !records[n].hitCap && records[n].thinkParsed {
        from := from + [n];
      }
      forall i | 0 <= i < |records| && records[i].correct && !records[i].hitCap && records[i].thinkParsed
        ensures i in from
      {
        if i < n {
          assert records[..n][i] == records[i];
        }
      }
    }
  }

  /** Predicted eligibility of a record, from its prompt and offsets. */
  lemma PredictedIff(r: BaseRecord, budget: nat, ctx: Context, active: set<nat>)
    requires ctx.divideLength >= 1
    requires forall k :: k in active <==>
               && k in ctx.scored && k < |r.offsets|
               && KeptShare(r, r.offsets[k], budget, ctx.divideLength) <= ctx.settings.meaningfulRetentionCeiling
    ensures Predicted(r, budget, ctx) <==>
              && |r.offsets| >= 9 && KeptShare(r, r.offsets[8], budget, ctx.divideLength) <= ctx.settings.meaningfulRetentionCeiling
              && |active| >= ctx.settings.minMeaningfullyCompressedScoredFractions
  {
    var cuts := Cuts(r);
    assert forall k :: 0 <= k < |cuts| ==> cuts[k] == r.prompt + r.offsets[k];
    hide Schedule.LengthAt, Schedule.RetentionRatio, Schedule.PredictedEligible, Cuts;
    Schedule.PredictedEligibleIff(r.prompt, cuts, ctx.scored, budget, ctx.divideLength, ctx.settings.meaningfulRetentionCeiling,
                                  ctx.settings.minMeaningfullyCompressedScoredFractions, active);
  }

  /** The share of the cache kept this many tokens after the prompt. */
  function KeptShare(r: BaseRecord, offset: nat, budget: nat, divide: nat): real
    requires divide >= 1
  {
    Schedule.RetentionRatio(Schedule.LengthAt(r.prompt, r.prompt + offset, budget, divide), r.prompt + offset)
  }

  /** Python's `xs[:cap]`: a negative bound counts from the end. */
  function Take<T>(xs: seq<T>, cap: Option<int>): seq<T> {
    if cap.None? then xs else xs[..SliceEnd(cap.value, |xs|)]
  }

  function SliceEnd(bound: int, size: nat): (end: nat)
    ensures end <= size
  {
    if bound >= 0 then Min(bound, size) else Max(0, size + bound)
  }

  function Cap(ctx: Context, override: Option<int>): Option<int> {
    if override.Some? then override else ctx.settings.maxSelectedExamples
  }

  /** The chosen candidates: eligible ones in row order, capped. */
  function Chosen(ranked: seq<Candidate>, cap: Option<int>): seq<Candidate> {
    Take(Filter(ranked, IsEligible()), cap)
  }

  function Marked(ranked: seq<Candidate>, chosen: set<string>): seq<Candidate> {
    seq(|ranked|, i requires 0 <= i < |ranked| => ranked[i].(selected := ranked[i].id in chosen))
  }

  function FileOf(ranked: seq<Candidate>, budget: nat, ctx: Context, cap: Option<int>): SelectionFile {
    var chosen := Chosen(ranked, cap);
    SelectionFile(
      Some(ctx.configSha), Some(ctx.baseSha), Some(ctx.stageName), Some(budget), Some(ctx.divideLength), cap,
      Some(|ranked|), Some(|Filter(ranked, IsEligible())|), Some(|chosen|),
      Ids(chosen), Rows(chosen), Marked(ranked, Elements(Ids(chosen))))
  }

  /** `_write_fixed_trace_selection`: rank everything first, then filter, then cap. */
  method WriteSelection(records: seq<BaseRecord>, budget: nat, ctx: Context, override: Option<int>)
    returns (file: SelectionFile, rejected: nat)
    requires ctx.divideLength >= 1
    ensures file == FileOf(SortBy(CandidatesOf(records, budget, ctx), RowOf()), budget, ctx, Cap(ctx, override))
    ensures rejected + |file.candidates| == |records|
  {
    hide Predicted, SortBy, Filter, Elements, Take;
    var candidates: seq<Candidate> := [];
    rejected := 0;
    for n := 0 to |records|
      invariant candidates == CandidatesOf(records[..n], budget, ctx)
      invariant rejected + |candidates| == n
    {
      var r := records[n];
      assert records[..n + 1][..n] == records[..n];
      if !r.correct || r.hitCap {
        rejected := rejected + 1;
      } else if !r.thinkParsed {
        rejected := rejected + 1;
      } else {
        candidates := candidates + [Candidate(r.id, r.row, Predicted(r, budget, ctx), false)];
      }
    }
    assert records[..|records|] == records;
    SortByMembers(candidates, RowOf());
    candidates := SortBy(candidates, RowOf());
    ghost var ranked := candidates;
    var eligible := Filter(candidates, IsEligible());
    var cap := Cap(ctx, override);
    var chosen := Take(eligible, cap);
    var chosenIds := Elements(Ids(chosen));
    for n := 0 to |candidates|
      invariant |candidates| == |ranked|
      invariant forall i :: 0 <= i < n ==> candidates[i] == ranked[i].(selected := ranked[i].id in chosenIds)
      invariant forall i :: n <= i < |ranked| ==> candidates[i] == ranked[i]
    {
      candidates := candidates[n := candidates[n].(selected := candidates[n].id in chosenIds)];
    }
    assert candidates == Marked(ranked, chosenIds);
    file := SelectionFile(
      Some(ctx.configSha), Some(ctx.baseSha), Some(ctx.stageName), Some(budget), Some(ctx.divideLength), cap,
      Some(|candidates|), Some(|eligible|), Some(|chosen|), Ids(chosen), Rows(chosen), candidates);
  }

  // ---------------------------------------------------------------- the loader

  datatype Mismatch =
    | ConfigSha | BaseSha | Budget | DivideLength | StageName | MaxSelected
    | DuplicateCandidateIds | DuplicateCandidateRows | RankedCount | EligibleCount | FlagsDisagree
    | DuplicateIds | DuplicateRows | SelectedCount | NotInBase | LengthsDiffer
    | NoCandidate(id: string) | RowDisagrees(id: string) | NotEligible(id: string)

  /** The file was made for this configuration, base file and lock. */
  predicate HeaderAgrees(s: SelectionFile, ctx: Context) {
    && s.configSha == Some(ctx.configSha)
    && (ctx.baseExists ==> s.baseSha == Some(ctx.baseSha))
    && s.budget == ctx.budget
    && s.divideLength == Some(ctx.divideLength)
    && s.stageName == Some(ctx.stageName)
    && (ctx.settings.maxSelectedExamples.Some? ==> s.maxSelected == ctx.settings.maxSelectedExamples)
  }

  function FlaggedIds(cs: seq<Candidate>): set<string> { set c | c in cs && c.selected :: c.id }

  /** The candidate list is consistent in itself and with the summary fields. */
  ghost predicate CandidatesConsistent(s: SelectionFile) {
    && Distinct(Ids(s.candidates)) && Distinct(Rows(s.candidates))
    && (s.nRanked.Some? ==> s.nRanked.value == |s.candidates|)
    && (s.nPredictedEligible.Some? ==> s.nPredictedEligible.value == Count(s.candidates, IsEligible()))
    && FlaggedIds(s.candidates) == Elements(s.ids)
  }

  /** An eligible candidate with this id and row is on the list. */
  ghost predicate BackedBy(cs: seq<Candidate>, id: string, row: int) {
    exists c :: c in cs && c.id == id && c.row == row && c.predictedEligible
  }

  ghost predicate ChoiceConsistent(s: SelectionFile, ctx: Context) {
    && Distinct(s.ids) && Distinct(s.rows)
    && s.nSelected == Some(|s.ids|)
    && (ctx.baseExists ==> Elements(s.ids) <= ctx.baseIds)
    && |s.ids| == |s.rows|
    && forall i :: 0 <= i < |s.ids| ==> BackedBy(s.candidates, s.ids[i], s.rows[i])
  }

  ghost predicate Acceptable(s: SelectionFile, ctx: Context) {
    HeaderAgrees(s, ctx) && CandidatesConsistent(s) && ChoiceConsistent(s, ctx)
  }

  method CheckHeader(s: SelectionFile, ctx: Context) returns (mismatches: seq<Mismatch>)
    ensures mismatches == [] <==> HeaderAgrees(s, ctx)
    ensures ConfigSha in mismatches <==> s.configSha != Some(ctx.configSha)
    ensures BaseSha in mismatches <==> ctx.baseExists && s.baseSha != Some(ctx.baseSha)
    ensures Budget in mismatches <==> s.budget != ctx.budget
    ensures DivideLength in mismatches <==> s.divideLength != Some(ctx.divideLength)
    ensures StageName in mismatches <==> s.stageName != Some(ctx.stageName)
    ensures MaxSelected in mismatches <==> ctx.settings.maxSelectedExamples.Some? && s.maxSelected != ctx.settings.maxSelectedExamples
  {
    mismatches := [];
    if s.configSha != Some(ctx.configSha) { mismatches := mismatches + [ConfigSha]; }
    if ctx.baseExists && s.baseSha != Some(ctx.baseSha) { mismatches := mismatches + [BaseSha]; }
    if s.budget != ctx.budget { mismatches := mismatches + [Budget]; }
    if s.divideLength != Some(ctx.divideLength) { mismatches := mismatches + [DivideLength]; }
    if s.stageName != Some(ctx.stageName) { mismatches := mismatches + [StageName]; }
    if ctx.settings.maxSelectedExamples.Some? && s.maxSelected != ctx.settings.maxSelectedExamples {
      mismatches := mismatches + [MaxSelected];
    }
  }

  method CheckCandidates(s: SelectionFile) returns (mismatches: seq<Mismatch>)
    ensures mismatches == [] <==> CandidatesConsistent(s)
    ensures DuplicateCandidateIds in mismatches <==> !Distinct(Ids(s.candidates))
    ensures DuplicateCandidateRows in mismatches <==> !Distinct(Rows(s.candidates))
    ensures RankedCount in mismatches <==> s.nRanked.Some? && s.nRanked.value != |s.candidates|
    ensures EligibleCount in mismatches <==>
              s.nPredictedEligible.Some? && s.nPredictedEligible.value != Count(s.candidates, IsEligible())
    ensures FlagsDisagree in mismatches <==> FlaggedIds(s.candidates) != Elements(s.ids)
  {
    mismatches := [];
    DistinctIffCardinality(Ids(s.candidates));
    DistinctIffCardinality(Rows(s.candidates));
    if |Ids(s.candidates)| != |Elements(Ids(s.candidates))| { mismatches := mismatches + [DuplicateCandidateIds]; }
    if |Rows(s.candidates)| != |Elements(Rows(s.candidates))| { mismatches := mismatches + [DuplicateCandidateRows]; }
    if s.nRanked.Some? && s.nRanked.value != |s.candidates| { mismatches := mismatches + [RankedCount]; }
    if s.nPredictedEligible.Some? && s.nPredictedEligible.value != Count(s.candidates, IsEligible()) {
      mismatches := mismatches + [EligibleCount];
    }
    if FlaggedIds(s.candidates) != Elements(s.ids) { mismatches := mismatches + [FlagsDisagree]; }
  }

  /** `{c["base_record_id"]: c for c in candidates}`: the last entry of an id stays. */
  function ById(cs: seq<Candidate>): (m: map<string, Candidate>)
    ensures forall id :: id in m ==> m[id] in cs && m[id].id == id
    ensures forall c :: c in cs ==> c.id in m
  {
    if cs == [] then map[] else
      assert cs == cs[..|cs| - 1] + [cs[|cs| - 1]];
      ById(cs[..|cs| - 1])[cs[|cs| - 1].id := cs[|cs| - 1]]
  }

  predicate Backs(m: map<string, Candidate>, id: string, row: int) {
    id in m && m[id].row == row && m[id].predictedEligible
  }

  lemma NoneOutside(a: set<string>, b: set<string>)
    ensures a - b == {} <==> a <= b
  {
    assert forall x :: x in a && x !in b ==> x in a - b;
  }

  method CheckChoice(s: SelectionFile, ctx: Context) returns (mismatches: seq<Mismatch>)
    ensures mismatches == [] <==>
              && Distinct(s.ids) && Distinct(s.rows)
              && s.nSelected == Some(|s.ids|)
              && (ctx.baseExists ==> Elements(s.ids) <= ctx.baseIds)
              && |s.ids| == |s.rows|
              && forall i :: 0 <= i < |s.ids| ==> Backs(ById(s.candidates), s.ids[i], s.rows[i])
  {
    mismatches := [];
    var byId := ById(s.candidates);
    DistinctIffCardinality(s.ids);
    DistinctIffCardinality(s.rows);
    hide Distinct, ById;
    assert Elements(s.ids) - ctx.baseIds == {} <==> Elements(s.ids) <= ctx.baseIds by { NoneOutside(Elements(s.ids), ctx.baseIds); }
    if |s.ids| != |Elements(s.ids)| { mismatches := mismatches + [DuplicateIds]; }
    if |s.rows| != |Elements(s.rows)| { mismatches := mismatches + [DuplicateRows]; }
    if s.nSelected != Some(|s.ids|) { mismatches := mismatches + [SelectedCount]; }
    if ctx.baseExists && Elements(s.ids) - ctx.baseIds != {} { mismatches := mismatches + [NotInBase]; }
    if |s.ids| != |s.rows| { return mismatches + [LengthsDiffer]; }
    ghost var sofar := mismatches == [];
    for n := 0 to |s.ids|
      invariant mismatches == [] <==> sofar && forall i :: 0 <= i < n ==> Backs(byId, s.ids[i], s.rows[i])
    {
      var id := s.ids[n];
      if id !in byId {
        mismatches := mismatches + [NoCandidate(id)];
      } else {
        if byId[id].row != s.rows[n] { mismatches := mismatches + [RowDisagrees(id)]; }
        if !byId[id].predictedEligible { mismatches := mismatches + [NotEligible(id)]; }
      }
    }
  }

  /** With one entry per id, the dictionary and the list back the same choices. */
  lemma BackedIff(cs: seq<Candidate>, id: string, row: int)
    requires Distinct(Ids(cs))
    ensures Backs(ById(cs), id, row) <==> BackedBy(cs, id, row)
  {
    hide ById;
    if BackedBy(cs, id, row) {
      var c :| c in cs && c.id == id && c.row == row && c.predictedEligible;
      var other := ById(cs)[id];
      var i :| 0 <= i < |cs| && cs[i] == c;
      var j :| 0 <= j < |cs| && cs[j] == other;
      assert Ids(cs)[i] == Ids(cs)[j];
    }
  }

  /** `_load_fixed_trace_selection`: it refuses exactly what is not acceptable. */
  method LoadSelection(s: SelectionFile, ctx: Context) returns (mismatches: seq<Mismatch>)
    ensures mismatches == [] <==> Acceptable(s, ctx)
  {
    var onHeader := CheckHeader(s, ctx);
    var onCandidates := CheckCandidates(s);
    var onChoice := CheckChoice(s, ctx);
    mismatches := onHeader + onCandidates + onChoice;
    if CandidatesConsistent(s) && |s.ids| == |s.rows| {
      forall i | 0 <= i < |s.ids|
        ensures Backs(ById(s.candidates), s.ids[i], s.rows[i]) <==> BackedBy(s.candidates, s.ids[i], s.rows[i])
      {
        BackedIff(s.candidates, s.ids[i], s.rows[i]);
      }
    }
    hide Distinct, Backs, BackedBy, HeaderAgrees, CandidatesConsistent;
  }

  // ---------------------------------------------------------------- round trip

  function UsableIds(records: seq<BaseRecord>, budget: nat, ctx: Context): seq<string>
    requires ctx.divideLength >= 1
  {
    Ids(CandidatesOf(records, budget, ctx))
  }

  function UsableRows(records: seq<BaseRecord>, budget: nat, ctx: Context): seq<int>
    requires ctx.divideLength >= 1
  {
    Rows(CandidatesOf(records, budget, ctx))
  }

  /** The cap written is the one the configuration registers, if it registers any. */
  predicate CapAgrees(ctx: Context, override: Option<int>) {
    ctx.settings.maxSelectedExamples.Some? && override.Some? ==> override == ctx.settings.maxSelectedExamples
  }

  /** The loader's context is the one the file was written in. */
  predicate SameContext(ctx: Context, budget: nat, records: seq<BaseRecord>) {
    && ctx.divideLength >= 1 && ctx.budget == Some(budget)
    && (forall r :: r in records ==> r.id in ctx.baseIds)
  }

  /** Under the same configuration, base file and lock, the loader accepts what the writer
      wrote exactly when usable records have distinct ids and distinct rows and the cap was not
      overridden away from the registered one. */
  lemma RoundTripIff(records: seq<BaseRecord>, budget: nat, ctx: Context, override: Option<int>)
    requires SameContext(ctx, budget, records)
    ensures Acceptable(FileOf(SortBy(CandidatesOf(records, budget, ctx), RowOf()), budget, ctx, Cap(ctx, override)), ctx) <==>
              Distinct(UsableIds(records, budget, ctx)) && Distinct(UsableRows(records, budget, ctx)) && CapAgrees(ctx, override)
  {
    var candidates := CandidatesOf(records, budget, ctx);
    var ranked, cap := SortBy(candidates, RowOf()), Cap(ctx, override);
    CandidatesKnown(records, budget, ctx);
    SortedIdsAndRows(candidates, ranked);
    FileAcceptableIff(ranked, budget, ctx, cap);
    hide Distinct, Acceptable, FileOf, SortBy, CandidatesOf;
  }

  lemma {:induction false} CandidatesKnown(records: seq<BaseRecord>, budget: nat, ctx: Context)
    requires ctx.divideLength >= 1 && forall r :: r in records ==> r.id in ctx.baseIds
    ensures forall c :: c in CandidatesOf(records, budget, ctx) ==> c.id in ctx.baseIds
  {
    if records != [] {
      CandidatesKnown(records[..|records| - 1], budget, ctx);
      hide Predicted;
    }
  }

  /** Sorting changes neither the number of candidates nor their ids and rows. */
  lemma SortedIdsAndRows(candidates: seq<Candidate>, ranked: seq<Candidate>)
    requires ranked == SortBy(candidates, RowOf())
    ensures Distinct(Ids(ranked)) <==> Distinct(Ids(candidates))
    ensures Distinct(Rows(ranked)) <==> Distinct(Rows(candidates))
    ensures forall c :: c in ranked <==> c in candidates
  {
    SortByMembers(candidates, RowOf());
    hide SortBy, Distinct;
    SameIdsAndRows(ranked, candidates);
    SameIdsAndRows(candidates, ranked);
    assert Elements(Ids(ranked)) == Elements(Ids(candidates));
    assert Elements(Rows(ranked)) == Elements(Rows(candidates));
    DistinctIffCardinality(Ids(ranked));
    DistinctIffCardinality(Ids(candidates));
    DistinctIffCardinality(Rows(ranked));
    DistinctIffCardinality(Rows(candidates));
  }

  lemma SameIdsAndRows(a: seq<Candidate>, b: seq<Candidate>)
    requires forall c :: c in a ==> c in b
    ensures Elements(Ids(a)) <= Elements(Ids(b)) && Elements(Rows(a)) <= Elements(Rows(b))
  {
    forall i | 0 <= i < |a|
      ensures Ids(a)[i] in Ids(b) && Rows(a)[i] in Rows(b)
    {
      assert a[i] in b;
      var j :| 0 <= j < |b| && b[j] == a[i];
      assert Ids(b)[j] == Ids(a)[i] && Rows(b)[j] == Rows(a)[i];
    }
  }

  lemma FileAcceptableIff(ranked: seq<Candidate>, budget: nat, ctx: Context, cap: Option<int>)
    requires ctx.budget == Some(budget) && forall c :: c in ranked ==> c.id in ctx.baseIds
    ensures Acceptable(FileOf(ranked, budget, ctx, cap), ctx) <==>
              && Distinct(Ids(ranked)) && Distinct(Rows(ranked))
              && (ctx.settings.maxSelectedExamples.Some? ==> cap == ctx.settings.maxSelectedExamples)
  {
    var file := FileOf(ranked, budget, ctx, cap);
    assert Ids(file.candidates) == Ids(ranked) && Rows(file.candidates) == Rows(ranked);
    if Distinct(Ids(ranked)) && Distinct(Rows(ranked)) {
      MarkedIsConsistent(ranked, budget, ctx, cap);
      ChoiceIsConsistent(ranked, budget, ctx, cap);
    }
    hide Distinct, ChoiceConsistent, FlaggedIds, Elements, Chosen;
  }

  /** The chosen candidates are eligible ranked ones, in the same order. */
  lemma ChosenAreEligible(ranked: seq<Candidate>, cap: Option<int>)
    ensures forall c :: c in Chosen(ranked, cap) ==> c in ranked && c.predictedEligible
    ensures Distinct(Ids(ranked)) ==> Distinct(Ids(Chosen(ranked, cap)))
    ensures Distinct(Rows(ranked)) ==> Distinct(Rows(Chosen(ranked, cap)))
  {
    hide Filter, Ids, Rows, Distinct;
    var eligible, chosen := Filter(ranked, IsEligible()), Chosen(ranked, cap);
    assert chosen <= eligible;
    EligibleStayDistinct(ranked);
    BeginningStaysDistinct(chosen, eligible);
  }

  lemma EligibleStayDistinct(ranked: seq<Candidate>)
    ensures Distinct(Ids(ranked)) ==> Distinct(Ids(Filter(ranked, IsEligible())))
    ensures Distinct(Rows(ranked)) ==> Distinct(Rows(Filter(ranked, IsEligible())))
  {
    hide Filter, Ids, Rows, Distinct;
    DistinctIffDiffer(ranked);
    DistinctIffDiffer(Filter(ranked, IsEligible()));
    if Distinct(Ids(ranked)) {
      FilteredIdsDistinct(ranked);
    }
    if Distinct(Rows(ranked)) {
      FilteredRowsDistinct(ranked);
    }
  }

  lemma BeginningStaysDistinct(beginning: seq<Candidate>, cs: seq<Candidate>)
    requires beginning <= cs
    ensures Distinct(Ids(cs)) ==> Distinct(Ids(beginning))
    ensures Distinct(Rows(cs)) ==> Distinct(Rows(beginning))
  {
    assert Ids(beginning) <= Ids(cs) && Rows(beginning) <= Rows(cs);
    hide Ids, Rows;
  }

  lemma DistinctIffDiffer(cs: seq<Candidate>)
    ensures Distinct(Ids(cs)) <==> forall i, j :: 0 <= i < j < |cs| ==> cs[i].id != cs[j].id
    ensures Distinct(Rows(cs)) <==> forall i, j :: 0 <= i < j < |cs| ==> cs[i].row != cs[j].row
  {
    assert forall i :: 0 <= i < |cs| ==> Ids(cs)[i] == cs[i].id && Rows(cs)[i] == cs[i].row;
  }

  lemma {:induction false} FilteredIdsDistinct(ranked: seq<Candidate>)
    requires forall i, j :: 0 <= i < j < |ranked| ==> ranked[i].id != ranked[j].id
    ensures var eligible := Filter(ranked, IsEligible()); forall i, j :: 0 <= i < j < |eligible| ==> eligible[i].id != eligible[j].id
  {
    if ranked != [] {
      FilteredIdsDistinct(ranked[..|ranked| - 1]);
    }
  }

  lemma {:induction false} FilteredRowsDistinct(ranked: seq<Candidate>)
    requires forall i, j :: 0 <= i < j < |ranked| ==> ranked[i].row != ranked[j].row
    ensures var eligible := Filter(ranked, IsEligible()); forall i, j :: 0 <= i < j < |eligible| ==> eligible[i].row != eligible[j].row
  {
    if ranked != [] {
      FilteredRowsDistinct(ranked[..|ranked| - 1]);
    }
  }

  lemma MarkedIsConsistent(ranked: seq<Candidate>, budget: nat, ctx: Context, cap: Option<int>)
    requires Distinct(Ids(ranked)) && Distinct(Rows(ranked))
    ensures CandidatesConsistent(FileOf(ranked, budget, ctx, cap))
  {
    var file := FileOf(ranked, budget, ctx, cap);
    var chosen := Elements(file.ids);
    assert Ids(file.candidates) == Ids(ranked) && Rows(file.candidates) == Rows(ranked);
    MarkingKeepsEligible(ranked, chosen);
    ChosenAreEligible(ranked, cap);
    hide Distinct, Filter, Take, Chosen, Count;
    SameIdsAndRows(Chosen(ranked, cap), ranked);
    FlagsAreChosen(ranked, chosen);
  }

  lemma {:induction false} MarkingKeepsEligible(ranked: seq<Candidate>, chosen: set<string>)
    ensures Count(Marked(ranked, chosen), IsEligible()) == |Filter(ranked, IsEligible())|
  {
    if ranked != [] {
      var rest := ranked[..|ranked| - 1];
      MarkingKeepsEligible(rest, chosen);
      assert Marked(ranked, chosen)[..|rest|] == Marked(rest, chosen);
    }
  }

  lemma FlagsAreChosen(ranked: seq<Candidate>, chosen: set<string>)
    requires chosen <= Elements(Ids(ranked))
    ensures FlaggedIds(Marked(ranked, chosen)) == chosen
  {
    var marked := Marked(ranked, chosen);
    forall id | id in chosen
      ensures id in FlaggedIds(marked)
    {
      assert id in Ids(ranked);
      var i :| 0 <= i < |Ids(ranked)| && Ids(ranked)[i] == id;
      assert marked[i] in marked && marked[i].selected && marked[i].id == id;
    }
  }

  lemma ChoiceIsConsistent(ranked: seq<Candidate>, budget: nat, ctx: Context, cap: Option<int>)
    requires Distinct(Ids(ranked)) && Distinct(Rows(ranked)) && forall c :: c in ranked ==> c.id in ctx.baseIds
    ensures ChoiceConsistent(FileOf(ranked, budget, ctx, cap), ctx)
  {
    var file, chosen := FileOf(ranked, budget, ctx, cap), Chosen(ranked, cap);
    ChosenAreEligible(ranked, cap);
    hide Distinct, Filter, Take, Chosen;
    forall i | 0 <= i < |chosen|
      ensures chosen[i].id in ctx.baseIds && BackedBy(file.candidates, file.ids[i], file.rows[i])
    {
      assert chosen[i] in ranked;
      var k :| 0 <= k < |ranked| && ranked[k] == chosen[i];
      assert file.candidates[k] in file.candidates;
    }
  }

  // ---------------------------------------------------------------- what was selected

  /** The selection is a beginning, as long as the slice says, of the eligible candidates in row
      order: no chosen one has a higher row than one that was left out. */
  lemma SelectionIsFirstEligible(records: seq<BaseRecord>, budget: nat, ctx: Context, cap: Option<int>)
    requires ctx.divideLength >= 1
    ensures var candidates := CandidatesOf(records, budget, ctx);
            var chosen := Chosen(SortBy(candidates, RowOf()), cap);
            && |chosen| == (if cap.Some? then SliceEnd(cap.value, Count(candidates, IsEligible())) else Count(candidates, IsEligible()))
            && SortedBy(chosen, RowOf())
            && (forall c :: c in chosen ==> c in candidates && c.predictedEligible)
            && (forall c, d :: c in candidates && c.predictedEligible && c !in chosen && d in chosen ==> d.row <= c.row)
  {
    var candidates := CandidatesOf(records, budget, ctx);
    var ranked := SortBy(candidates, RowOf());
    SortBySorts(candidates, RowOf());
    SortByMembers(candidates, RowOf());
    CountIsPermutationInvariant(candidates, ranked, IsEligible());
    hide SortBy, CandidatesOf;
    FirstOfSorted(ranked, cap);
    ChosenAreEligible(ranked, cap);
  }

  /** What the file says of itself: where it comes from, the cap that was in force, and counts and
      flags that match its own lists; its candidates in row order. */
  lemma FileReports(records: seq<BaseRecord>, budget: nat, ctx: Context, override: Option<int>)
    requires ctx.divideLength >= 1
    ensures var file := FileOf(SortBy(CandidatesOf(records, budget, ctx), RowOf()), budget, ctx, Cap(ctx, override));
            && file.configSha == Some(ctx.configSha) && file.baseSha == Some(ctx.baseSha) && file.stageName == Some(ctx.stageName)
            && file.budget == Some(budget) && file.divideLength == Some(ctx.divideLength)
            && file.maxSelected == (if override.Some? then override else ctx.settings.maxSelectedExamples)
            && |file.candidates| == |CandidatesOf(records, budget, ctx)| && file.nRanked == Some(|file.candidates|)
            && file.nPredictedEligible == Some(Count(CandidatesOf(records, budget, ctx), IsEligible()))
            && file.nSelected == Some(|file.ids|) && |file.ids| == |file.rows|
            && SortedBy(file.candidates, RowOf())
            && (forall k :: 0 <= k < |file.candidates| ==>
                  && (file.candidates[k].selected <==> file.candidates[k].id in file.ids)
                  && file.candidates[k].(selected := false) in CandidatesOf(records, budget, ctx))
  {
    var candidates := CandidatesOf(records, budget, ctx);
    var from := CandidatesAre(records, budget, ctx);
    var ranked := SortBy(candidates, RowOf());
    SortBySorts(candidates, RowOf());
    SortByMembers(candidates, RowOf());
    CountIsPermutationInvariant(candidates, ranked, IsEligible());
    FilteredSorted(ranked);
    hide SortBy, CandidatesOf, Predicted, Count;
    MarkedReports(ranked, Chosen(ranked, Cap(ctx, override)));
    forall k | 0 <= k < |ranked|
      ensures !ranked[k].selected
    {
      assert ranked[k] in candidates;
      var i :| 0 <= i < |candidates| && candidates[i] == ranked[k];
      assert i < |from|;
    }
  }

  lemma MarkedReports(ranked: seq<Candidate>, chosen: seq<Candidate>)
    requires SortedBy(ranked, RowOf())
    ensures var marked := Marked(ranked, Elements(Ids(chosen)));
            && |marked| == |ranked| && SortedBy(marked, RowOf())
            && forall k :: 0 <= k < |ranked| ==>
                 marked[k].(selected := ranked[k].selected) == ranked[k] && (marked[k].selected <==> marked[k].id in Ids(chosen))
  {
    var marked := Marked(ranked, Elements(Ids(chosen)));
    assert forall id :: id in Elements(Ids(chosen)) <==> id in Ids(chosen);
    forall i, j | 0 <= i < j < |marked|
      ensures RowOf()(marked[i]) <= RowOf()(marked[j])
    {
      assert RowOf()(ranked[i]) <= RowOf()(ranked[j]);
    }
  }

  /** The selection is the first min(cap, eligible) eligible candidates of this ranking; a cap
      below zero leaves room for none. */
  ghost predicate TakesFirst(ranked: seq<Candidate>, cap: Option<int>) {
    var eligible := Filter(ranked, IsEligible());
    Chosen(ranked, cap) == eligible[..if cap.Some? then Min(Max(cap.value, 0), |eligible|) else |eligible|]
  }

  /** That is what a ranking gives exactly when the cap is absent or not negative, or leaves out
      all its eligible candidates; and what every ranking gives exactly in the first two cases.
      The command accepts a negative cap, and then leaves candidates out from the end. */
  lemma TakesFirstIff(cap: Option<int>)
    ensures forall ranked :: TakesFirst(ranked, cap) <==>
              cap.None? || cap.value >= 0 || |Filter(ranked, IsEligible())| <= -cap.value
    ensures (forall ranked :: TakesFirst(ranked, cap)) <==> cap.None? || cap.value >= 0
    ensures cap.Some? && cap.value < 0 ==> forall ranked ::
              && Chosen(ranked, cap) <= Filter(ranked, IsEligible())
              && |Chosen(ranked, cap)| == Max(0, |Filter(ranked, IsEligible())| + cap.value)
  {
    if cap.Some? && cap.value < 0 {
      var ranked := seq(1 - cap.value, i => Candidate("", i, true, false));
      FilterKeepsAll(ranked, IsEligible());
      hide Filter;
      assert |Chosen(ranked, cap)| == 1;
      assert !TakesFirst(ranked, cap);
    }
  }

  /** The failing input: with `--max-selected -1` and three eligible candidates, two are selected,
      and under a configuration without a cap of its own the loader accepts the file. */
  lemma NegativeCapSelectsFromTheEnd(a: Candidate, b: Candidate, c: Candidate, ranked: seq<Candidate>, budget: nat, ctx: Context)
    requires a.predictedEligible && b.predictedEligible && c.predictedEligible && ranked == [a, b, c]
    requires a.row < b.row < c.row && a.id != b.id && b.id != c.id && a.id != c.id
    requires ctx.budget == Some(budget) && {a.id, b.id, c.id} <= ctx.baseIds && ctx.settings.maxSelectedExamples.None?
    ensures Chosen(ranked, Some(-1)) == [a, b] && !TakesFirst(ranked, Some(-1))
    ensures Acceptable(FileOf(ranked, budget, ctx, Some(-1)), ctx)
  {
    hide Filter, Acceptable, FileOf, Distinct;
    FilterKeepsAll(ranked, IsEligible());
    ThreeDiffer(ranked);
    FileAcceptableIff(ranked, budget, ctx, Some(-1));
  }

  lemma ThreeDiffer(ranked: seq<Candidate>)
    requires |ranked| == 3
    requires ranked[0].row < ranked[1].row < ranked[2].row
    requires ranked[0].id != ranked[1].id && ranked[1].id != ranked[2].id && ranked[0].id != ranked[2].id
    ensures Distinct(Ids(ranked)) && Distinct(Rows(ranked))
  {
    DistinctIffDiffer(ranked);
    hide Distinct, Ids, Rows;
  }

  lemma FirstOfSorted(ranked: seq<Candidate>, cap: Option<int>)
    requires SortedBy(ranked, RowOf())
    ensures var chosen := Chosen(ranked, cap);
            && |chosen| == (if cap.Some? then SliceEnd(cap.value, Count(ranked, IsEligible())) else Count(ranked, IsEligible()))
            && SortedBy(chosen, RowOf())
            && (forall c, d :: c in ranked && c.predictedEligible && c !in chosen && d in chosen ==> d.row <= c.row)
  {
    FilteredSorted(ranked);
    hide Count, RowOf;
    forall c, d | c in ranked && c.predictedEligible && c !in Chosen(ranked, cap) && d in Chosen(ranked, cap)
      ensures d.row <= c.row
    {
      assert IsEligible()(c) && c in Filter(ranked, IsEligible());
      LeftOutComesLater(Filter(ranked, IsEligible()), Chosen(ranked, cap), c, d);
    }
    assert Chosen(ranked, cap) <= Filter(ranked, IsEligible());
    hide Filter;
  }

  lemma LeftOutComesLater(eligible: seq<Candidate>, chosen: seq<Candidate>, c: Candidate, d: Candidate)
    requires SortedBy(eligible, RowOf()) && chosen <= eligible
    requires c in eligible && c !in chosen && d in chosen
    ensures d.row <= c.row
  {
    assert forall k :: 0 <= k < |chosen| ==> eligible[k] == chosen[k] && chosen[k] != c;
    var i :| 0 <= i < |eligible| && eligible[i] == c;
    var j :| 0 <= j < |chosen| && chosen[j] == d;
    assert RowOf()(eligible[j]) <= RowOf()(eligible[i]);
  }

  lemma {:induction false} FilteredSorted(ranked: seq<Candidate>)
    requires SortedBy(ranked, RowOf())
    ensures SortedBy(Filter(ranked, IsEligible()), RowOf())
    ensures |Filter(ranked, IsEligible())| == Count(ranked, IsEligible())
  {
    if ranked != [] {
      var rest, last := ranked[..|ranked| - 1], ranked[|ranked| - 1];
      assert forall k :: 0 <= k < |rest| ==> RowOf()(rest[k]) <= RowOf()(last);
      FilteredSorted(rest);
      FilteredBelow(rest, last.row);
    }
  }

  lemma FilteredBelow(cs: seq<Candidate>, row: int)
    requires forall k :: 0 <= k < |cs| ==> RowOf()(cs[k]) <= row
    ensures forall k :: 0 <= k < |Filter(cs, IsEligible())| ==> RowOf()(Filter(cs, IsEligible())[k]) <= row
  {
    forall k | 0 <= k < |Filter(cs, IsEligible())|
      ensures RowOf()(Filter(cs, IsEligible())[k]) <= row
    {
      assert Filter(cs, IsEligible())[k] in cs;
    }
  }

  lemma {:induction false} CountIsPermutationInvariant<T>(a: seq<T>, b: seq<T>, p: T -> bool)
    requires multiset(a) == multiset(b)
    ensures Count(a, p) == Count(b, p)
  {
    hide Count;
    SameSize(a, b);
    if a != [] {
      var rest, last := a[..|a| - 1], a[|a| - 1];
      LastOut(a);
      var i := PositionOf(b, last);
      OneOut(b, i);
      CountIsPermutationInvariant(rest, b[..i] + b[i + 1..], p);
      CountWithout(b[..i], last, b[i + 1..], p);
      LastOfCount(a, p);
    } else {
      assert a == b;
    }
  }

  lemma PositionOf<T>(xs: seq<T>, x: T) returns (i: nat)
    requires x in multiset(xs)
    ensures i < |xs| && xs[i] == x
  {
    assert x in xs;
    i :| 0 <= i < |xs| && xs[i] == x;
  }

  lemma OneOut<T>(xs: seq<T>, i: nat)
    requires i < |xs|
    ensures multiset(xs[..i] + xs[i + 1..]) == multiset(xs) - multiset{xs[i]} && xs == xs[..i] + [xs[i]] + xs[i + 1..]
  {
    assert xs == xs[..i] + [xs[i]] + xs[i + 1..];
  }

  lemma LastOfCount<T>(xs: seq<T>, p: T -> bool)
    requires xs != []
    ensures Count(xs, p) == Count(xs[..|xs| - 1], p) + if p(xs[|xs| - 1]) then 1 else 0
  {
  }

  lemma {:induction false} CountWithout<T>(before: seq<T>, x: T, after: seq<T>, p: T -> bool)
    ensures Count(before + [x] + after, p) == Count(before + after, p) + if p(x) then 1 else 0
  {
    if after == [] {
      assert before + [x] + after == before + [x] && before + after == before;
      CountSnoc(before, x, p);
    } else {
      var rest, last := after[..|after| - 1], after[|after| - 1];
      CountWithout(before, x, rest, p);
      assert before + [x] + after == (before + [x] + rest) + [last] && before + after == (before + rest) + [last];
      CountSnoc(before + [x] + rest, last, p);
      CountSnoc(before + rest, last, p);
    }
  }

  /** An accepted file selects distinct ids, each of exactly one candidate, which is eligible
      and has the row listed beside the id. */
  lemma AcceptedSelectionIsSound(s: SelectionFile, ctx: Context, i: nat)
    requires Acceptable(s, ctx) && i < |s.ids|
    ensures Distinct(s.ids) && |s.ids| == |s.rows| && s.nSelected == Some(|s.ids|)
    ensures Distinct(s.rows) && Distinct(Ids(s.candidates)) && Distinct(Rows(s.candidates))
    ensures ctx.baseExists ==> s.ids[i] in ctx.baseIds && s.baseSha == Some(ctx.baseSha)
    ensures s.configSha == Some(ctx.configSha) && s.stageName == Some(ctx.stageName) && s.budget == ctx.budget
    ensures s.divideLength == Some(ctx.divideLength)
    ensures ctx.settings.maxSelectedExamples.Some? ==> s.maxSelected == ctx.settings.maxSelectedExamples
    ensures s.nRanked.Some? ==> s.nRanked.value == |s.candidates|
    ensures s.nPredictedEligible.Some? ==> s.nPredictedEligible.value == Count(s.candidates, IsEligible())
    ensures forall k :: 0 <= k < |s.candidates| && s.candidates[k].selected ==> s.candidates[k].id in s.ids
    ensures exists k :: 0 <= k < |s.candidates| && s.candidates[k].id == s.ids[i] && s.candidates[k].row == s.rows[i]
                        && s.candidates[k].predictedEligible && s.candidates[k].selected
                        && forall j :: 0 <= j < |s.candidates| && s.candidates[j].id == s.ids[i] ==> j == k
  {
    AcceptedHeader(s, ctx, i);
    hide HeaderAgrees, Count;
    assert BackedBy(s.candidates, s.ids[i], s.rows[i]);
    var c :| c in s.candidates && c.id == s.ids[i] && c.row == s.rows[i] && c.predictedEligible;
    var k :| 0 <= k < |s.candidates| && s.candidates[k] == c;
    assert s.ids[i] in FlaggedIds(s.candidates);
    var f :| f in s.candidates && f.selected && f.id == s.ids[i];
    var m :| 0 <= m < |s.candidates| && s.candidates[m] == f;
    assert forall j :: 0 <= j < |s.candidates| ==> Ids(s.candidates)[j] == s.candidates[j].id;
  }

  lemma AcceptedHeader(s: SelectionFile, ctx: Context, i: nat)
    requires Acceptable(s, ctx) && i < |s.ids|
    ensures ctx.baseExists ==> s.ids[i] in ctx.baseIds && s.baseSha == Some(ctx.baseSha)
    ensures s.configSha == Some(ctx.configSha) && s.stageName == Some(ctx.stageName) && s.budget == ctx.budget
    ensures s.divideLength == Some(ctx.divideLength)
    ensures ctx.settings.maxSelectedExamples.Some? ==> s.maxSelected == ctx.settings.maxSelectedExamples
    ensures forall k :: 0 <= k < |s.candidates| && s.candidates[k].selected ==> s.candidates[k].id in s.ids
  {
    hide Distinct, Count, BackedBy;
    assert s.ids[i] in Elements(s.ids);
    forall k | 0 <= k < |s.candidates| && s.candidates[k].selected
      ensures s.candidates[k].id in s.ids
    {
      assert s.candidates[k] in s.candidates;
      assert s.candidates[k].id in FlaggedIds(s.candidates);
    }
  }

  // ---------------------------------------------------------------- what acceptance does not check

  /** A file made for this context that selects every one of the ids, whatever cap it records. */
  function AllSelected(ids: seq<string>, ctx: Context, cap: int): SelectionFile {
    SelectionFile(
      Some(ctx.configSha), Some(ctx.baseSha), Some(ctx.stageName), ctx.budget, Some(ctx.divideLength), Some(cap),
      Some(|ids|), Some(|ids|), Some(|ids|), ids, seq(|ids|, i => i), AllEligible(ids))
  }

  function AllEligible(ids: seq<string>): seq<Candidate> {
    seq(|ids|, i requires 0 <= i < |ids| => Candidate(ids[i], i, true, true))
  }

  /** The loader accepts it: the number of selected ids is never compared with the cap. */
  lemma AllSelectedAccepted(ids: seq<string>, ctx: Context, cap: int)
    requires Distinct(ids) && (ctx.baseExists ==> Elements(ids) <= ctx.baseIds)
    requires ctx.settings.maxSelectedExamples.Some? ==> ctx.settings.maxSelectedExamples.value == cap
    ensures Acceptable(AllSelected(ids, ctx, cap), ctx)
  {
    var cs := AllEligible(ids);
    assert Ids(cs) == ids && Rows(cs) == seq(|ids|, i => i);
    CountEverything(cs, IsEligible());
    forall i | 0 <= i < |ids|
      ensures BackedBy(cs, ids[i], i) && ids[i] in FlaggedIds(cs)
    {
      assert cs[i] in cs;
    }
    hide Count, BackedBy;
  }

  /** No accepted file with this cap selects more than the cap. */
  ghost predicate LoaderKeepsCap(ctx: Context, cap: int) {
    forall s :: Acceptable(s, ctx) && s.maxSelected == Some(cap) ==> |s.ids| <= cap
  }

  /** The loader keeps a cap exactly when the configuration registers a different one, or the base
      file is there and has no more records than the cap. `listing` is the base ids in some order. */
  lemma LoaderKeepsCapIff(ctx: Context, cap: int, listing: seq<string>)
    requires Distinct(listing) && Elements(listing) == ctx.baseIds
    ensures LoaderKeepsCap(ctx, cap) <==>
              || (ctx.settings.maxSelectedExamples.Some? && ctx.settings.maxSelectedExamples.value != cap)
              || (ctx.baseExists && |ctx.baseIds| <= cap)
  {
    DistinctIffCardinality(listing);
    if ctx.settings.maxSelectedExamples.Some? && ctx.settings.maxSelectedExamples.value != cap {
    } else if ctx.baseExists && |ctx.baseIds| <= cap {
      forall s | Acceptable(s, ctx) && s.maxSelected == Some(cap)
        ensures |s.ids| <= cap
      {
        DistinctIffCardinality(s.ids);
        CardinalityMonotone(Elements(s.ids), ctx.baseIds);
      }
    } else {
      var ids := if ctx.baseExists then listing else Lengthening(Max(cap + 1, 0));
      LengtheningDistinct(Max(cap + 1, 0));
      AllSelectedAccepted(ids, ctx, cap);
      hide Acceptable, Distinct;
      assert |AllSelected(ids, ctx, cap).ids| > cap;
    }
  }

  /** The loader's cap is not the writer's: a file with a cap of 2 and 5 selected ids is accepted. */
  lemma OverfullSelectionAccepted(ids: seq<string>, ctx: Context)
    requires Distinct(ids) && |ids| == 5 && Elements(ids) == ctx.baseIds && ctx.settings.maxSelectedExamples == Some(2)
    ensures Acceptable(AllSelected(ids, ctx, 2), ctx) && AllSelected(ids, ctx, 2).maxSelected == Some(2) && |AllSelected(ids, ctx, 2).ids| == 5
    ensures !LoaderKeepsCap(ctx, 2)
  {
    AllSelectedAccepted(ids, ctx, 2);
    hide Acceptable, Distinct;
    assert |AllSelected(ids, ctx, 2).ids| == 5;
  }

  /** As many different names as wanted. */
  function Lengthening(n: nat): seq<string> { seq(n, i requires 0 <= i < n => seq(i, _ => 'x')) }

  lemma LengtheningDistinct(n: nat)
    ensures Distinct(Lengthening(n)) && |Lengthening(n)| == n
  {
    assert forall i :: 0 <= i < n ==> |Lengthening(n)[i]| == i;
  }
}

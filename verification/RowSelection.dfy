/** Outcome-blind row selection: filter and order a dataset, attempt rows in that order until
    one qualifies, freeze it (src/kvcot/discovery/b2a_r2_candidates.py,
    src/kvcot/discovery/b2a_qualification.py, src/kvcot/discovery/b2a_r2_freeze.py). */
module RowSelection {
  import opened Prelude
  import opened Sorting
  import Schedule = RkvSchedule

  datatype Row = Row(uniqueId: string, level: string, hasExpectedColumns: bool, text: string)

  /** What a manifest, an artifact and a configuration must agree on. */
  datatype Identity = Identity(dataset: string, model: string, tokenizer: string, budget: nat)

  datatype Candidate = Candidate(ordinal: nat, sourceIndex: nat, row: Row)

  datatype Manifest = Manifest(identity: Identity, candidates: seq<Candidate>, population: nat, sha: string)

  const CANDIDATE_LEVEL := "5"
  const CANDIDATE_COUNT: nat := 12
  const MAX_CANDIDATES_ATTEMPTED: nat := 12

  // ---------------------------------------------------------------- the candidate manifest

  datatype ManifestError = UnexpectedColumns(index: nat) | DuplicateId(uniqueId: string)

  /** A row with its position in the file. */
  datatype Placed = Placed(index: nat, row: Row)

  function IsLevel(): Row -> bool { (r: Row) => r.level == CANDIDATE_LEVEL }

  function RowHash(hash: string -> int): Row -> int { (r: Row) => hash(r.uniqueId) }

  function PlacedHash(hash: string -> int): Placed -> int { (p: Placed) => hash(p.row.uniqueId) }

  function UniqueIds(rows: seq<Row>): seq<string> { seq(|rows|, i requires 0 <= i < |rows| => rows[i].uniqueId) }

  function RowsOf(placed: seq<Placed>): seq<Row> { seq(|placed|, i requires 0 <= i < |placed| => placed[i].row) }

  /** The rows of the wanted level, placed. */
  function Population(rows: seq<Row>): seq<Placed> {
    if rows == [] then [] else
      var rest, last := Population(rows[..|rows| - 1]), rows[|rows| - 1];
      if last.level == CANDIDATE_LEVEL then rest + [Placed(|rows| - 1, last)] else rest
  }

  /** Every row has the expected columns, and no wanted id occurs twice. */
  predicate Usable(rows: seq<Row>) {
    && (forall i :: 0 <= i < |rows| ==> rows[i].hasExpectedColumns)
    && Distinct(UniqueIds(RowsOf(Population(rows))))
  }

  function FirstOf<T>(xs: seq<T>, n: nat): seq<T> { if n <= |xs| then xs[..n] else xs }

  function Numbered(placed: seq<Placed>): seq<Candidate> {
    seq(|placed|, i requires 0 <= i < |placed| => Candidate(i, placed[i].index, placed[i].row))
  }

  /** The candidates of a usable file: its population in hash order, the first twelve. */
  function CandidatesOf(rows: seq<Row>, hash: string -> int): seq<Candidate> {
    Numbered(FirstOf(SortBy(Population(rows), PlacedHash(hash)), CANDIDATE_COUNT))
  }

  /** `build_candidate_manifest`. */
  method BuildCandidateManifest(rows: seq<Row>, identity: Identity, hash: string -> int, sha: seq<Candidate> -> string)
    returns (manifest: Result<Manifest, ManifestError>)
    ensures manifest.Ok? <==> Usable(rows)
    ensures manifest.Ok? ==>
              manifest.value == Manifest(identity, CandidatesOf(rows, hash), |Population(rows)|, sha(CandidatesOf(rows, hash)))
    ensures manifest.Err? && manifest.error.UnexpectedColumns? ==>
              manifest.error.index < |rows| && !rows[manifest.error.index].hasExpectedColumns
    ensures manifest.Err? && manifest.error.DuplicateId? ==>
              exists i, j :: 0 <= i < j < |rows| && rows[i].level == rows[j].level == "5"
                             && rows[i].uniqueId == rows[j].uniqueId == manifest.error.uniqueId
  {
    hide SortBy;
    var eligible: seq<Placed> := [];
    var seen: set<string> := {};
    for n := 0 to |rows|
      invariant eligible == Population(rows[..n])
      invariant seen == Elements(UniqueIds(RowsOf(eligible)))
      invariant Usable(rows[..n])
    {
      var row := rows[n];
      assert rows[..n + 1][..n] == rows[..n];
      if !row.hasExpectedColumns {
        assert !rows[..n + 1][n].hasExpectedColumns;
        PrefixUsable(rows, n + 1);
        return Err(UnexpectedColumns(n));
      }
      if row.level == CANDIDATE_LEVEL {
        IdsSnoc(eligible, Placed(n, row));
        if row.uniqueId in seen {
          SharedId(rows, n);
          PrefixUsable(rows, n + 1);
          return Err(DuplicateId(row.uniqueId));
        }
        seen := seen + {row.uniqueId};
        eligible := eligible + [Placed(n, row)];
      }
    }
    assert rows[..|rows|] == rows;
    var scored := SortBy(eligible, PlacedHash(hash));
    var candidates := Numbered(FirstOf(scored, CANDIDATE_COUNT));
    manifest := Ok(Manifest(identity, candidates, |eligible|, sha(candidates)));
  }

  /** An id already seen belongs to an earlier wanted row. */
  lemma SharedId(rows: seq<Row>, n: nat)
    requires n < |rows| && rows[n].uniqueId in Elements(UniqueIds(RowsOf(Population(rows[..n]))))
    ensures exists i :: 0 <= i < n && rows[i].level == "5" && rows[i].uniqueId == rows[n].uniqueId
  {
    var before, ids := Population(rows[..n]), UniqueIds(RowsOf(Population(rows[..n])));
    PopulationIs(rows[..n]);
    var k :| 0 <= k < |ids| && ids[k] == rows[n].uniqueId;
    assert WantedAt(rows[..n], before[k].index);
    assert rows[before[k].index].uniqueId == rows[n].uniqueId;
  }

  lemma IdsSnoc(placed: seq<Placed>, p: Placed)
    ensures UniqueIds(RowsOf(placed + [p])) == UniqueIds(RowsOf(placed)) + [p.row.uniqueId]
    ensures Elements(UniqueIds(RowsOf(placed + [p]))) == Elements(UniqueIds(RowsOf(placed))) + {p.row.uniqueId}
    ensures Distinct(UniqueIds(RowsOf(placed + [p]))) <==>
              Distinct(UniqueIds(RowsOf(placed))) && p.row.uniqueId !in Elements(UniqueIds(RowsOf(placed)))
  {
    var ids, id := UniqueIds(RowsOf(placed)), p.row.uniqueId;
    assert UniqueIds(RowsOf(placed + [p])) == ids + [id];
    ElementsSnoc(ids, id);
    hide UniqueIds, RowsOf;
    DistinctSnoc(ids, id);
  }

  lemma DistinctSnoc(ids: seq<string>, id: string)
    ensures Distinct(ids + [id]) <==> Distinct(ids) && id !in Elements(ids)
  {
    var longer := ids + [id];
    assert forall i :: 0 <= i < |ids| ==> longer[i] == ids[i];
    if id in Elements(ids) {
      var i :| 0 <= i < |ids| && ids[i] == id;
      assert longer[i] == longer[|ids|];
    }
    if Distinct(longer) {
      assert forall i, j :: 0 <= i < j < |ids| ==> longer[i] != longer[j];
    }
  }

  /** A usable file has only usable beginnings. */
  lemma {:induction false} PrefixUsable(rows: seq<Row>, n: nat)
    requires n <= |rows|
    ensures Usable(rows) ==> Usable(rows[..n])
    decreases |rows| - n
  {
    if n < |rows| && Usable(rows) {
      PrefixUsable(rows, n + 1);
      var longer := rows[..n + 1];
      assert longer[..n] == rows[..n];
      forall i | 0 <= i < n
        ensures rows[..n][i].hasExpectedColumns
      {
        assert longer[i] == rows[..n][i];
      }
      if rows[n].level == CANDIDATE_LEVEL {
        IdsSnoc(Population(rows[..n]), Placed(n, rows[n]));
      }
    } else {
      assert n == |rows| ==> rows[..n] == rows;
    }
  }

  // ---------------------------------------------------------------- candidates, told from the file

  /** A row of the wanted level at this place of the file. */
  predicate WantedAt(rows: seq<Row>, i: int) { 0 <= i < |rows| && rows[i].level == "5" }

  lemma {:induction false} PopulationIs(rows: seq<Row>)
    ensures forall k :: 0 <= k < |Population(rows)| ==>
              var p := Population(rows)[k]; WantedAt(rows, p.index) && p.row == rows[p.index]
    ensures forall j, k :: 0 <= j < k < |Population(rows)| ==> Population(rows)[j].index < Population(rows)[k].index
    ensures forall i :: WantedAt(rows, i) ==> Placed(i, rows[i]) in Population(rows)
  {
    if rows != [] {
      var rest, n := rows[..|rows| - 1], |rows| - 1;
      PopulationIs(rest);
      assert forall i :: 0 <= i < n ==> (WantedAt(rows, i) <==> WantedAt(rest, i)) && rest[i] == rows[i];
    }
  }

  lemma {:induction false} PopulationSize(rows: seq<Row>, wanted: set<int>)
    requires forall i :: i in wanted <==> WantedAt(rows, i)
    ensures |Population(rows)| == |wanted|
  {
    if rows == [] {
      var none: set<int> := {};
      forall i: int
        ensures i in wanted <==> i in none
      {
        assert i in wanted <==> WantedAt(rows, i);
      }
      assert wanted == none;
    } else {
      var rest, n := rows[..|rows| - 1], |rows| - 1;
      assert forall i :: WantedAt(rest, i) <==> WantedAt(rows, i) && i != n;
      PopulationSize(rest, wanted - {n});
      assert WantedAt(rows, n) ==> wanted == (wanted - {n}) + {n};
      assert !WantedAt(rows, n) ==> wanted == wanted - {n};
    }
  }

  /** A file is usable exactly when every row has the expected columns and no two wanted rows share
      their id. */
  lemma UsableIff(rows: seq<Row>)
    ensures Usable(rows) <==>
              && (forall i :: 0 <= i < |rows| ==> rows[i].hasExpectedColumns)
              && (forall i, j :: i < j && WantedAt(rows, i) && WantedAt(rows, j) ==> rows[i].uniqueId != rows[j].uniqueId)
  {
    PopulationIs(rows);
    var population := Population(rows);
    var ids := UniqueIds(RowsOf(population));
    hide Population;
    assert forall k :: 0 <= k < |population| ==> ids[k] == rows[population[k].index].uniqueId;
    if Distinct(ids) {
      forall i, j | i < j && WantedAt(rows, i) && WantedAt(rows, j)
        ensures rows[i].uniqueId != rows[j].uniqueId
      {
        var a :| 0 <= a < |population| && population[a] == Placed(i, rows[i]);
        var b :| 0 <= b < |population| && population[b] == Placed(j, rows[j]);
        assert ids[a] == rows[i].uniqueId && ids[b] == rows[j].uniqueId;
      }
    }
  }

  /** No candidate was taken from this place. */
  predicate LeftOut(cs: seq<Candidate>, i: int) { forall j :: 0 <= j < |cs| ==> cs[j].sourceIndex != i }

  /** The candidates are the twelve wanted rows of least hash, or all of them if there are fewer:
      each names its place in the file, they come in hash order, and no wanted row left out has a
      smaller hash than any of them. */
  lemma CandidatesAre(rows: seq<Row>, hash: string -> int, wanted: set<int>)
    requires forall i :: i in wanted <==> WantedAt(rows, i)
    ensures |Population(rows)| == |wanted|
    ensures var cs := CandidatesOf(rows, hash);
            && |cs| == (if |wanted| < 12 then |wanted| else 12)
            && (forall k :: 0 <= k < |cs| ==> cs[k].ordinal == k && WantedAt(rows, cs[k].sourceIndex) && cs[k].row == rows[cs[k].sourceIndex])
            && (forall j, k :: 0 <= j < k < |cs| ==>
                  cs[j].sourceIndex != cs[k].sourceIndex && hash(cs[j].row.uniqueId) <= hash(cs[k].row.uniqueId))
            && (forall i, k :: WantedAt(rows, i) && LeftOut(cs, i) && 0 <= k < |cs| ==> hash(cs[k].row.uniqueId) <= hash(rows[i].uniqueId))
  {
    PopulationSize(rows, wanted);
    SortedPopulation(rows, hash);
    var sorted, cs := SortBy(Population(rows), PlacedHash(hash)), CandidatesOf(rows, hash);
    assert |cs| <= |sorted| && forall k :: 0 <= k < |cs| ==> cs[k] == Candidate(k, sorted[k].index, sorted[k].row);
    hide Population, SortBy, CandidatesOf;
    forall i, k | WantedAt(rows, i) && LeftOut(cs, i) && 0 <= k < |cs|
      ensures hash(cs[k].row.uniqueId) <= hash(rows[i].uniqueId)
    {
      var j :| 0 <= j < |sorted| && sorted[j] == Placed(i, rows[i]);
      assert j >= |cs|;
    }
  }

  /** The population in hash order, place by place. */
  lemma SortedPopulation(rows: seq<Row>, hash: string -> int)
    ensures var sorted := SortBy(Population(rows), PlacedHash(hash));
            && |sorted| == |Population(rows)|
            && (forall k :: 0 <= k < |sorted| ==> WantedAt(rows, sorted[k].index) && sorted[k].row == rows[sorted[k].index])
            && (forall j, k :: 0 <= j < k < |sorted| ==>
                  sorted[j].index != sorted[k].index && hash(sorted[j].row.uniqueId) <= hash(sorted[k].row.uniqueId))
            && (forall i :: WantedAt(rows, i) ==> exists j :: 0 <= j < |sorted| && sorted[j] == Placed(i, rows[i]))
  {
    PopulationIs(rows);
    var population := Population(rows);
    var sorted := SortBy(population, PlacedHash(hash));
    SortBySorts(population, PlacedHash(hash));
    SortByMembers(population, PlacedHash(hash));
    hide Population, SortBy;
    assert forall k :: 0 <= k < |sorted| ==> sorted[k] in sorted;
    SortedPlacesDiffer(population, sorted);
    forall j, k | 0 <= j < k < |sorted|
      ensures hash(sorted[j].row.uniqueId) <= hash(sorted[k].row.uniqueId)
    {
      assert PlacedHash(hash)(sorted[j]) <= PlacedHash(hash)(sorted[k]);
    }
    forall i | WantedAt(rows, i)
      ensures exists j :: 0 <= j < |sorted| && sorted[j] == Placed(i, rows[i])
    {
      assert Placed(i, rows[i]) in sorted;
    }
  }

  lemma SortedPlacesDiffer(population: seq<Placed>, sorted: seq<Placed>)
    requires multiset(population) == multiset(sorted)
    requires forall j, k :: 0 <= j < k < |population| ==> population[j].index < population[k].index
    requires forall x :: x in sorted <==> x in population
    ensures forall j, k :: 0 <= j < k < |sorted| ==> sorted[j].index != sorted[k].index
  {
    forall j, k | 0 <= j < k < |sorted|
      ensures sorted[j].index != sorted[k].index
    {
      TwoOfThem(sorted, j, k);
      assert sorted[j] in population && sorted[k] in population;
      if sorted[j].index == sorted[k].index {
        var a :| 0 <= a < |population| && population[a] == sorted[j];
        var b :| 0 <= b < |population| && population[b] == sorted[k];
        OnlyOnce(population, a);
        assert false;
      }
    }
  }

  lemma TwoOfThem<T>(xs: seq<T>, j: nat, k: nat)
    requires j < k < |xs|
    ensures xs[j] == xs[k] ==> multiset(xs)[xs[j]] >= 2
  {
    assert xs == xs[..j] + [xs[j]] + xs[j + 1..k] + [xs[k]] + xs[k + 1..];
  }

  lemma OnlyOnce(population: seq<Placed>, a: nat)
    requires a < |population| && forall j, k :: 0 <= j < k < |population| ==> population[j].index < population[k].index
    ensures multiset(population)[population[a]] == 1
  {
    var before, after := population[..a], population[a + 1..];
    assert population == before + [population[a]] + after;
    assert population[a] !in before && population[a] !in after;
  }

  // ---------------------------------------------------------------- file order is immaterial

  lemma {:induction false} PopulationRows(rows: seq<Row>)
    ensures RowsOf(Population(rows)) == Filter(rows, IsLevel())
  {
    if rows != [] {
      var rest, last := rows[..|rows| - 1], rows[|rows| - 1];
      PopulationRows(rest);
      assert RowsOf(Population(rest) + [Placed(|rest|, last)]) == RowsOf(Population(rest)) + [last];
    }
  }

  /** Sorting placed rows and dropping the places is sorting the rows. */
  lemma {:induction false} SortForgetsPlaces(placed: seq<Placed>, hash: string -> int)
    ensures RowsOf(SortBy(placed, PlacedHash(hash))) == SortBy(RowsOf(placed), RowHash(hash))
  {
    if placed != [] {
      var rest, last := placed[..|placed| - 1], placed[|placed| - 1];
      SortForgetsPlaces(rest, hash);
      assert RowsOf(rest) == RowsOf(placed)[..|rest|];
      InsertForgetsPlaces(last, SortBy(rest, PlacedHash(hash)), hash);
    }
  }

  lemma {:induction false} InsertForgetsPlaces(p: Placed, placed: seq<Placed>, hash: string -> int)
    ensures RowsOf(Insert(p, placed, PlacedHash(hash))) == Insert(p.row, RowsOf(placed), RowHash(hash))
  {
    if placed == [] || PlacedHash(hash)(placed[|placed| - 1]) <= PlacedHash(hash)(p) {
      assert RowsOf(placed + [p]) == RowsOf(placed) + [p.row];
    } else {
      var rest, last := placed[..|placed| - 1], placed[|placed| - 1];
      InsertForgetsPlaces(p, rest, hash);
      assert RowsOf(rest) == RowsOf(placed)[..|rest|];
      assert RowsOf(Insert(p, rest, PlacedHash(hash)) + [last]) == RowsOf(Insert(p, rest, PlacedHash(hash))) + [last.row];
    }
  }

  /** The candidates' rows are the wanted rows, sorted by hash, the first twelve. */
  function SelectedRows(rows: seq<Row>, hash: string -> int): seq<Row> {
    FirstOf(SortBy(Filter(rows, IsLevel()), RowHash(hash)), CANDIDATE_COUNT)
  }

  lemma CandidateRows(rows: seq<Row>, hash: string -> int)
    ensures |CandidatesOf(rows, hash)| == |SelectedRows(rows, hash)|
    ensures forall i :: 0 <= i < |CandidatesOf(rows, hash)| ==> CandidatesOf(rows, hash)[i].row == SelectedRows(rows, hash)[i]
  {
    PopulationRows(rows);
    SortForgetsPlaces(Population(rows), hash);
    hide SortBy, Filter, Population;
    var sorted := SortBy(Population(rows), PlacedHash(hash));
    assert RowsOf(FirstOf(sorted, CANDIDATE_COUNT)) == FirstOf(RowsOf(sorted), CANDIDATE_COUNT);
  }

  ghost predicate InjectiveOnIds(hash: string -> int) {
    forall a, b :: hash(a) == hash(b) ==> a == b
  }

  /** Two files with the same rows, in whatever order, are both refused or both accepted, and
      then give the same candidate rows in the same order. */
  lemma FileOrderIsImmaterial(a: seq<Row>, b: seq<Row>, hash: string -> int)
    requires multiset(a) == multiset(b) && InjectiveOnIds(hash)
    ensures Usable(a) <==> Usable(b)
    ensures Usable(a) ==> SelectedRows(a, hash) == SelectedRows(b, hash)
  {
    FilterPermutes(a, b, IsLevel());
    var wantedA, wantedB := Filter(a, IsLevel()), Filter(b, IsLevel());
    PopulationRows(a);
    PopulationRows(b);
    SameColumns(a, b);
    SameDistinctness(wantedA, wantedB);
    if Usable(a) {
      HashIdentifies(wantedA, hash);
      SortIgnoresInputOrder(wantedA, wantedB, RowHash(hash));
    }
    hide Filter, SortBy, Population, UniqueIds, RowsOf, Distinct;
  }

  lemma SameColumns(a: seq<Row>, b: seq<Row>)
    requires multiset(a) == multiset(b)
    ensures (forall i :: 0 <= i < |a| ==> a[i].hasExpectedColumns) <==> (forall i :: 0 <= i < |b| ==> b[i].hasExpectedColumns)
  {
    assert forall i :: 0 <= i < |a| ==> a[i] in multiset(b);
    assert forall i :: 0 <= i < |b| ==> b[i] in multiset(a);
  }

  lemma SameDistinctness(a: seq<Row>, b: seq<Row>)
    requires multiset(a) == multiset(b)
    ensures Distinct(UniqueIds(a)) <==> Distinct(UniqueIds(b))
  {
    SameSize(a, b);
    IdsWithin(a, b);
    IdsWithin(b, a);
    DistinctIffCardinality(UniqueIds(a));
    DistinctIffCardinality(UniqueIds(b));
    hide Distinct;
    assert Elements(UniqueIds(a)) == Elements(UniqueIds(b));
  }

  lemma IdsWithin(a: seq<Row>, b: seq<Row>)
    requires multiset(a) == multiset(b)
    ensures Elements(UniqueIds(a)) <= Elements(UniqueIds(b))
  {
    forall i | 0 <= i < |a|
      ensures UniqueIds(a)[i] in UniqueIds(b)
    {
      assert a[i] in multiset(b);
      var j :| 0 <= j < |b| && b[j] == a[i];
      assert UniqueIds(b)[j] == UniqueIds(a)[i];
    }
  }

  lemma HashIdentifies(rows: seq<Row>, hash: string -> int)
    requires Distinct(UniqueIds(rows)) && InjectiveOnIds(hash)
    ensures KeyIdentifies(rows, RowHash(hash))
  {
    forall x, y | x in rows && y in rows && RowHash(hash)(x) == RowHash(hash)(y)
      ensures x == y
    {
      var i :| 0 <= i < |rows| && rows[i] == x;
      var j :| 0 <= j < |rows| && rows[j] == y;
      assert UniqueIds(rows)[i] == UniqueIds(rows)[j];
    }
  }

  lemma {:induction false} FilterPermutes<T(!new)>(a: seq<T>, b: seq<T>, p: T -> bool)
    requires multiset(a) == multiset(b)
    ensures multiset(Filter(a, p)) == multiset(Filter(b, p))
  {
    forall x
      ensures multiset(Filter(a, p))[x] == multiset(Filter(b, p))[x]
    {
      FilterMultiplicity(a, p, x);
      FilterMultiplicity(b, p, x);
    }
  }

  lemma {:induction false} FilterMultiplicity<T>(xs: seq<T>, p: T -> bool, x: T)
    ensures multiset(Filter(xs, p))[x] == if p(x) then multiset(xs)[x] else 0
  {
    if xs != [] {
      FilterMultiplicity(xs[..|xs| - 1], p, x);
      LastOut(xs);
    }
  }

  // ---------------------------------------------------------------- qualification

  datatype AnswerStatus = Correct | Incorrect | Unverifiable | OtherStatus(text: string)

  /** What a FullKV run reports for one candidate. */
  datatype RawResult = RawResult(
    promptTokens: nat, generatedTokens: nat, capHit: bool, answer: AnswerStatus, identityOk: bool, batchSize: int,
    everyParameterOnCuda: bool, noOffload: bool, peakAllocated: int, peakReserved: int)

  datatype Config = Config(identity: Identity, divideLength: nat)

  /** The world of one qualification run: the model runs, and the events with enough future. */
  datatype Runner = Runner(run: Candidate -> RawResult, eligibleEvents: (seq<int>, nat, nat) -> seq<nat>)

  datatype Outcome = Outcome(ordinal: nat, uniqueId: string, conditions: seq<bool>, qualified: bool)

  const MEMORY_LIMIT_BYTES: int := 22 * 1024 * 1024 * 1024
  const MINIMUM_EVENTS: nat := 3

  function EventsOf(raw: RawResult, config: Config): seq<int>
    requires config.divideLength >= 1
  {
    Schedule.PredictedEvents(raw.promptTokens, raw.promptTokens + Max(raw.generatedTokens - 1, 0), config.identity.budget, config.divideLength)
  }

  /** `evaluate_candidate_qualification`: the ten mandatory conditions, in order. */
  function Conditions(raw: RawResult, predicted: nat, eligible: nat): seq<bool> {
    [!raw.capHit, raw.answer != Unverifiable, raw.answer == Correct, predicted >= MINIMUM_EVENTS, eligible >= MINIMUM_EVENTS,
     raw.identityOk, raw.batchSize == 1, raw.everyParameterOnCuda, raw.noOffload,
     Max(raw.peakAllocated, raw.peakReserved) <= MEMORY_LIMIT_BYTES]
  }

  function OutcomeOf(c: Candidate, config: Config, runner: Runner): Outcome
    requires config.divideLength >= 1
  {
    var raw := runner.run(c);
    var events := EventsOf(raw, config);
    var conditions := Conditions(raw, |events|, |runner.eligibleEvents(events, raw.promptTokens, raw.promptTokens + raw.generatedTokens)|);
    Outcome(c.ordinal, c.row.uniqueId, conditions, forall i :: 0 <= i < |conditions| ==> conditions[i])
  }

  predicate Qualifies(c: Candidate, config: Config, runner: Runner)
    requires config.divideLength >= 1
  {
    OutcomeOf(c, config, runner).qualified
  }

  /** Qualifying entails at least three scheduled compactions, counted in closed form. */
  lemma QualifiedHasThreeEvents(c: Candidate, config: Config, runner: Runner)
    requires config.divideLength >= 1 && Qualifies(c, config, runner)
    ensures var raw, budget := runner.run(c), config.identity.budget;
            (if raw.promptTokens > budget then 1 else 0)
            + Schedule.PeriodicAttempts(Max(raw.promptTokens, budget), raw.promptTokens + Max(raw.generatedTokens - 1, 0), config.divideLength)
            >= MINIMUM_EVENTS
  {
    var raw := runner.run(c);
    Schedule.PredictedEventsExact(raw.promptTokens, raw.promptTokens + Max(raw.generatedTokens - 1, 0), config.identity.budget, config.divideLength);
    assert OutcomeOf(c, config, runner).conditions[3];
    hide Schedule.PredictedEvents;
  }

  /** What qualifies a candidate: an uncapped run with the correct answer and the right identity, one
      sequence at a time, nothing off the device and at most 22 GiB of it, with at least three
      scheduled compactions in closed form and at least three of them with enough future tokens. */
  lemma QualifiesIff(c: Candidate, config: Config, runner: Runner)
    requires config.divideLength >= 1
    ensures var raw, budget := runner.run(c), config.identity.budget;
            var last := raw.promptTokens + Max(raw.generatedTokens - 1, 0);
            var events := Schedule.PredictedEvents(raw.promptTokens, last, budget, config.divideLength);
            Qualifies(c, config, runner) <==>
              && !raw.capHit && raw.answer == Correct && raw.identityOk && raw.batchSize == 1
              && raw.everyParameterOnCuda && raw.noOffload
              && raw.peakAllocated <= 23622320128 && raw.peakReserved <= 23622320128
              && (if raw.promptTokens > budget then 1 else 0)
                 + Schedule.PeriodicAttempts(Max(raw.promptTokens, budget), last, config.divideLength) >= 3
              && |runner.eligibleEvents(events, raw.promptTokens, raw.promptTokens + raw.generatedTokens)| >= 3
    ensures OutcomeOf(c, config, runner).ordinal == c.ordinal && OutcomeOf(c, config, runner).uniqueId == c.row.uniqueId
    ensures OutcomeOf(c, config, runner).qualified <==> false !in OutcomeOf(c, config, runner).conditions
  {
    var raw := runner.run(c);
    Schedule.PredictedEventsExact(raw.promptTokens, raw.promptTokens + Max(raw.generatedTokens - 1, 0), config.identity.budget, config.divideLength);
    hide Schedule.PredictedEvents, Schedule.PeriodicAttempts;
    var conditions := OutcomeOf(c, config, runner).conditions;
    assert |conditions| == 10;
    assert Qualifies(c, config, runner) <==>
             conditions[0] && conditions[1] && conditions[2] && conditions[3] && conditions[4]
             && conditions[5] && conditions[6] && conditions[7] && conditions[8] && conditions[9];
  }

  datatype Artifact = Artifact(identity: Identity, manifestSha: string, attempted: seq<Outcome>, selected: Option<(nat, string)>)

  datatype QualificationError =
    | ManifestIdentity | TooManyCandidates | DuplicateOrdinal(ordinal: nat) | UnknownAnswerStatus(ordinal: nat)

  function Ordinals(cs: seq<Candidate>): seq<nat> { seq(|cs|, i requires 0 <= i < |cs| => cs[i].ordinal) }

  predicate ManifestValid(m: Manifest, config: Config) {
    m.identity == config.identity && |m.candidates| <= MAX_CANDIDATES_ATTEMPTED && Distinct(Ordinals(m.candidates))
  }

  /** `validate_candidate_manifest_identity`. */
  method ValidateManifest(m: Manifest, config: Config) returns (error: Option<QualificationError>)
    ensures error.None? <==> ManifestValid(m, config)
    ensures error == Some(ManifestIdentity) <==> m.identity != config.identity
    ensures error.Some? ==> !error.value.UnknownAnswerStatus?
    ensures error == Some(TooManyCandidates) <==> m.identity == config.identity && |m.candidates| > 12
    ensures error.Some? && error.value.DuplicateOrdinal? ==>
              exists i, j :: 0 <= i < j < |m.candidates| && m.candidates[i].ordinal == m.candidates[j].ordinal == error.value.ordinal
  {
    if m.identity != config.identity { return Some(ManifestIdentity); }
    if |m.candidates| > MAX_CANDIDATES_ATTEMPTED { return Some(TooManyCandidates); }
    var seen: set<nat> := {};
    for n := 0 to |m.candidates|
      invariant forall x :: x in seen <==> x in Ordinals(m.candidates)[..n]
      invariant Distinct(Ordinals(m.candidates)[..n])
    {
      var ordinal, ordinals := m.candidates[n].ordinal, Ordinals(m.candidates);
      assert ordinals[..n + 1] == ordinals[..n] + [ordinals[n]];
      if ordinal in seen {
        var i :| 0 <= i < n && ordinals[..n][i] == ordinal;
        assert ordinals[i] == ordinals[n];
        return Some(DuplicateOrdinal(ordinal));
      }
      seen := seen + {ordinal};
    }
    assert Ordinals(m.candidates)[..|m.candidates|] == Ordinals(m.candidates);
    error := None;
  }

  /** `select_first_qualified`. */
  function SelectFirstQualified(attempted: seq<Outcome>): Option<Outcome> {
    if attempted == [] then None
    else if attempted[0].qualified then Some(attempted[0])
    else SelectFirstQualified(attempted[1..])
  }

  /** The first qualified attempt, if there is one. */
  lemma {:induction false} FirstQualifiedIs(attempted: seq<Outcome>, k: nat)
    requires k <= |attempted| && forall i :: 0 <= i < k ==> !attempted[i].qualified
    requires k < |attempted| ==> attempted[k].qualified
    ensures SelectFirstQualified(attempted) == if k < |attempted| then Some(attempted[k]) else None
  {
    if k > 0 {
      FirstQualifiedIs(attempted[1..], k - 1);
    }
  }

  function Selected(o: Option<Outcome>): Option<(nat, string)> {
    if o.Some? then Some((o.value.ordinal, o.value.uniqueId)) else None
  }

  /** A completed run: candidates attempted in order, stopping at the first that qualifies. */
  ghost predicate RanInOrder(m: Manifest, config: Config, runner: Runner, a: Artifact)
    requires config.divideLength >= 1
  {
    var n := |a.attempted|;
    && n <= |m.candidates|
    && (forall i :: 0 <= i < n ==> a.attempted[i] == OutcomeOf(m.candidates[i], config, runner))
    && (forall i :: 0 <= i < n - 1 ==> !a.attempted[i].qualified)
    && (if n > 0 && a.attempted[n - 1].qualified
        then a.selected == Some((a.attempted[n - 1].ordinal, a.attempted[n - 1].uniqueId))
        else n == |m.candidates| && a.selected.None?)
  }

  /** Some candidate reports an answer status that is none of the three, before any qualifies. */
  ghost predicate UnknownStatusFirst(m: Manifest, config: Config, runner: Runner)
    requires config.divideLength >= 1
  {
    exists i :: 0 <= i < |m.candidates| && runner.run(m.candidates[i]).answer.OtherStatus?
                && forall j :: 0 <= j < i ==> !Qualifies(m.candidates[j], config, runner)
  }

  /** `run_qualification_execute`. */
  method RunQualification(m: Manifest, config: Config, runner: Runner) returns (r: Result<Artifact, QualificationError>)
    requires config.divideLength >= 1
    ensures r.Ok? ==>
              && ManifestValid(m, config) && RanInOrder(m, config, runner, r.value)
              && r.value.identity == m.identity && r.value.manifestSha == m.sha
              && r.value.selected == Selected(SelectFirstQualified(r.value.attempted))
    ensures r.Ok? ==> forall i :: 0 <= i < |r.value.attempted| ==> !runner.run(m.candidates[i]).answer.OtherStatus?
    ensures r.Err? <==> !ManifestValid(m, config) || UnknownStatusFirst(m, config, runner)
    ensures r.Err? && r.error.UnknownAnswerStatus? ==>
              exists i :: 0 <= i < |m.candidates| && runner.run(m.candidates[i]).answer.OtherStatus?
                          && m.candidates[i].ordinal == r.error.ordinal
                          && forall j :: 0 <= j < i ==> !runner.run(m.candidates[j]).answer.OtherStatus?
  {
    hide EventsOf, Conditions, OutcomeOf, ManifestValid, SelectFirstQualified;
    var error := ValidateManifest(m, config);
    if error.Some? { return Err(error.value); }
    var attempted: seq<Outcome> := [];
    var selected: Option<(nat, string)> := None;
    var n := 0;
    while n < |m.candidates| && selected.None?
      invariant n == |attempted| <= |m.candidates|
      invariant forall i :: 0 <= i < n ==> attempted[i] == OutcomeOf(m.candidates[i], config, runner)
      invariant forall i :: 0 <= i < n - 1 ==> !attempted[i].qualified
      invariant forall i :: 0 <= i < n ==> !runner.run(m.candidates[i]).answer.OtherStatus?
      invariant if n > 0 && attempted[n - 1].qualified
                then selected == Some((attempted[n - 1].ordinal, attempted[n - 1].uniqueId)) else selected.None?
    {
      var raw := runner.run(m.candidates[n]);
      if raw.answer.OtherStatus? {
        assert forall j :: 0 <= j < n ==> !Qualifies(m.candidates[j], config, runner);
        return Err(UnknownAnswerStatus(m.candidates[n].ordinal));
      }
      var outcome := OutcomeOf(m.candidates[n], config, runner);
      attempted := attempted + [outcome];
      if outcome.qualified { selected := Some((outcome.ordinal, outcome.uniqueId)); }
      n := n + 1;
    }
    StopsAtFirst(attempted);
    assert selected.Some? ==> Qualifies(m.candidates[n - 1], config, runner);
    r := Ok(Artifact(m.identity, m.sha, attempted, selected));
  }

  /** When only the last attempt can qualify, it is what `select_first_qualified` finds. */
  lemma {:induction false} StopsAtFirst(attempted: seq<Outcome>)
    requires forall i :: 0 <= i < |attempted| - 1 ==> !attempted[i].qualified
    ensures SelectFirstQualified(attempted) ==
              if attempted != [] && attempted[|attempted| - 1].qualified then Some(attempted[|attempted| - 1]) else None
  {
    if |attempted| > 1 {
      StopsAtFirst(attempted[1..]);
    }
  }

  // ---------------------------------------------------------------- freezing the row

  datatype Refusal =
    | WrongManifest | WrongIdentity | NothingSelected
    | NotOneAttempt(found: nat) | SelectionInconsistent | NotQualified | ConditionFalse
    | NotOneCandidate(found: nat) | CandidateMismatch

  function AttemptAt(ordinal: nat): Outcome -> bool { (o: Outcome) => o.ordinal == ordinal }

  function CandidateAt(ordinal: nat): Candidate -> bool { (c: Candidate) => c.ordinal == ordinal }

  /** `_require_selected_and_qualified`. */
  function RequireSelectedAndQualified(a: Artifact): Result<(nat, string), Refusal> {
    if a.selected.None? then Err(NothingSelected) else
      var (ordinal, uniqueId) := a.selected.value;
      var matches := Filter(a.attempted, AttemptAt(ordinal));
      if |matches| != 1 then Err(NotOneAttempt(|matches|))
      else if matches[0].uniqueId != uniqueId then Err(SelectionInconsistent)
      else if !matches[0].qualified then Err(NotQualified)
      else if false in matches[0].conditions then Err(ConditionFalse)
      else Ok((ordinal, uniqueId))
  }

  /** `_require_matching_candidate_row`. */
  function RequireMatchingCandidate(m: Manifest, ordinal: nat, uniqueId: string): Result<Candidate, Refusal> {
    var matches := Filter(m.candidates, CandidateAt(ordinal));
    if |matches| != 1 then Err(NotOneCandidate(|matches|))
    else if matches[0].row.uniqueId != uniqueId then Err(CandidateMismatch)
    else Ok(matches[0])
  }

  /** `validate_freeze_request`. */
  function ValidateFreeze(config: Config, a: Artifact, m: Manifest): Result<Candidate, Refusal> {
    if a.manifestSha != m.sha then Err(WrongManifest)
    else if a.identity != config.identity then Err(WrongIdentity)
    else
      var selected := RequireSelectedAndQualified(a);
      if selected.Err? then Err(selected.error)
      else RequireMatchingCandidate(m, selected.value.0, selected.value.1)
  }

  /** Whatever the artifact, freezing succeeds exactly when it is the manifest's and the
      configuration's, its selection names exactly one attempt, of that id, qualified in every
      condition, and exactly one candidate, of that id: the one returned. */
  lemma FreezesIff(config: Config, a: Artifact, m: Manifest)
    ensures ValidateFreeze(config, a, m).Ok? <==>
              && a.manifestSha == m.sha && a.identity == config.identity && a.selected.Some?
              && (exists k :: OnlyAt(a.attempted, (o: Outcome) => o.ordinal == a.selected.value.0, k)
                              && a.attempted[k].uniqueId == a.selected.value.1
                              && a.attempted[k].qualified && false !in a.attempted[k].conditions)
              && (exists k :: OnlyAt(m.candidates, (c: Candidate) => c.ordinal == a.selected.value.0, k)
                              && m.candidates[k].row.uniqueId == a.selected.value.1)
    ensures ValidateFreeze(config, a, m).Ok? ==>
              var frozen := ValidateFreeze(config, a, m).value;
              frozen in m.candidates && frozen.ordinal == a.selected.value.0 && frozen.row.uniqueId == a.selected.value.1
    ensures ValidateFreeze(config, a, m) == Err(WrongManifest) <==> a.manifestSha != m.sha
    ensures ValidateFreeze(config, a, m) == Err(WrongIdentity) <==> a.manifestSha == m.sha && a.identity != config.identity
    ensures ValidateFreeze(config, a, m) == Err(NothingSelected) <==>
              a.manifestSha == m.sha && a.identity == config.identity && a.selected.None?
  {
    if a.selected.Some? {
      var (ordinal, uniqueId) := a.selected.value;
      FilterIsOneIff(a.attempted, AttemptAt(ordinal));
      FilterIsOneIff(m.candidates, CandidateAt(ordinal));
      SameOnly(a.attempted, AttemptAt(ordinal), (o: Outcome) => o.ordinal == a.selected.value.0);
      SameOnly(m.candidates, CandidateAt(ordinal), (c: Candidate) => c.ordinal == a.selected.value.0);
      hide Filter, OnlyAt;
    }
  }

  /** On a run's own artifact, freezing succeeds exactly when some candidate qualifies, and
      gives the first that does. */
  lemma FreezeFindsFirstQualified(m: Manifest, config: Config, runner: Runner, a: Artifact)
    requires config.divideLength >= 1 && ManifestValid(m, config) && RanInOrder(m, config, runner, a)
    requires a.identity == m.identity && a.manifestSha == m.sha
    ensures ValidateFreeze(config, a, m).Ok? <==> exists c :: c in m.candidates && Qualifies(c, config, runner)
    ensures ValidateFreeze(config, a, m).Ok? ==>
              exists k :: 0 <= k < |m.candidates| && ValidateFreeze(config, a, m).value == m.candidates[k]
                          && Qualifies(m.candidates[k], config, runner)
                          && forall i :: 0 <= i < k ==> !Qualifies(m.candidates[i], config, runner)
  {
    var n := |a.attempted|;
    hide EventsOf, Conditions, Filter;
    assert forall i :: 0 <= i < n ==> (a.attempted[i].qualified <==> Qualifies(m.candidates[i], config, runner));
    if a.selected.Some? {
      var k := n - 1;
      var chosen := m.candidates[k];
      forall i | 0 <= i < |m.candidates|
        ensures CandidateAt(chosen.ordinal)(m.candidates[i]) <==> i == k
      {
        assert Ordinals(m.candidates)[i] == m.candidates[i].ordinal && Ordinals(m.candidates)[k] == chosen.ordinal;
      }
      assert forall i :: 0 <= i < n ==> a.attempted[i].ordinal == m.candidates[i].ordinal;
      FilterFindsOne(a.attempted, AttemptAt(chosen.ordinal), k);
      FilterFindsOne(m.candidates, CandidateAt(chosen.ordinal), k);
      assert chosen in m.candidates && Qualifies(chosen, config, runner);
    }
  }

  /** From file to frozen row: the row frozen is a wanted row of the file, at its place, and every
      wanted row of smaller hash was a candidate that does not qualify. There is one exactly when
      one of the twelve wanted rows of least hash qualifies. */
  lemma FreezesHashLeastQualified(rows: seq<Row>, hash: string -> int, m: Manifest, config: Config, runner: Runner, a: Artifact,
                                  wanted: set<int>)
    requires config.divideLength >= 1 && m.identity == config.identity && m.candidates == CandidatesOf(rows, hash)
    requires RanInOrder(m, config, runner, a) && a.identity == m.identity && a.manifestSha == m.sha
    requires forall i :: i in wanted <==> WantedAt(rows, i)
    ensures ManifestValid(m, config)
    ensures ValidateFreeze(config, a, m).Ok? <==> exists c :: c in m.candidates && Qualifies(c, config, runner)
    ensures ValidateFreeze(config, a, m).Ok? ==>
              var frozen := ValidateFreeze(config, a, m).value;
              && WantedAt(rows, frozen.sourceIndex) && frozen.row == rows[frozen.sourceIndex] && Qualifies(frozen, config, runner)
              && (forall c :: c in m.candidates && Qualifies(c, config, runner) ==> hash(frozen.row.uniqueId) <= hash(c.row.uniqueId))
              && (forall i :: WantedAt(rows, i) && hash(rows[i].uniqueId) < hash(frozen.row.uniqueId) ==>
                    exists c :: c in m.candidates && c.sourceIndex == i && c.row == rows[i] && !Qualifies(c, config, runner))
  {
    hide CandidatesOf, EventsOf, Conditions, ValidateFreeze, Qualifies, WantedAt, Population, LeftOut, RanInOrder;
    CandidatesAre(rows, hash, wanted);
    assert ManifestValid(m, config) by { OrdinalsDistinct(m.candidates); }
    FreezeFindsFirstQualified(m, config, runner, a);
    if ValidateFreeze(config, a, m).Ok? {
      var frozen := ValidateFreeze(config, a, m).value;
      var k :| 0 <= k < |m.candidates| && frozen == m.candidates[k] && Qualifies(m.candidates[k], config, runner)
               && forall i :: 0 <= i < k ==> !Qualifies(m.candidates[i], config, runner);
      FirstIsHashLeast(rows, hash, m.candidates, c => Qualifies(c, config, runner), k);
    }
  }

  /** Among candidates as they come, the first that passes has the least hash, and wanted rows of
      smaller hash did not pass. */
  lemma FirstIsHashLeast(rows: seq<Row>, hash: string -> int, cs: seq<Candidate>, passes: Candidate -> bool, k: nat)
    requires k < |cs| && passes(cs[k]) && forall i :: 0 <= i < k ==> !passes(cs[i])
    requires forall i :: 0 <= i < |cs| ==> WantedAt(rows, cs[i].sourceIndex) && cs[i].row == rows[cs[i].sourceIndex]
    requires forall i, j :: 0 <= i < j < |cs| ==> hash(cs[i].row.uniqueId) <= hash(cs[j].row.uniqueId)
    requires forall i :: WantedAt(rows, i) && LeftOut(cs, i) ==> hash(cs[k].row.uniqueId) <= hash(rows[i].uniqueId)
    ensures forall c :: c in cs && passes(c) ==> hash(cs[k].row.uniqueId) <= hash(c.row.uniqueId)
    ensures forall i :: WantedAt(rows, i) && hash(rows[i].uniqueId) < hash(cs[k].row.uniqueId) ==>
              exists c :: c in cs && c.sourceIndex == i && c.row == rows[i] && !passes(c)
  {
    forall i | WantedAt(rows, i) && hash(rows[i].uniqueId) < hash(cs[k].row.uniqueId)
      ensures exists c :: c in cs && c.sourceIndex == i && c.row == rows[i] && !passes(c)
    {
      assert !LeftOut(cs, i);
      var j :| 0 <= j < |cs| && cs[j].sourceIndex == i;
      assert cs[j] in cs && j < k;
    }
  }

  lemma OrdinalsDistinct(cs: seq<Candidate>)
    requires forall i :: 0 <= i < |cs| ==> cs[i].ordinal == i
    ensures Distinct(Ordinals(cs))
  {
  }
}

/** The paired accuracy screen, which joins two files on their common keys, and the strict gate
    that turns the join into a bijection (src/kvcot/analysis/fixed_trace.py). */
module AccuracyGate {
  import opened Prelude
  import opened ScreenValidity

  datatype Key = Key(sourceRow: int, seed: int)

  datatype Record = Record(key: Key, identity: string, condition: string, correct: bool)

  /** A row of a natural-run file: it passes schema validation or it does not. */
  datatype Row = Malformed | WellFormed(record: Record)

  // ---------------------------------------------------------------- joining on the key

  /** `{key(r): r for r in records}`, kept to correctness: a later row replaces an earlier one. */
  function ByKey(records: seq<Record>): map<Key, bool> {
    if records == [] then map[]
    else ByKey(records[..|records| - 1])[records[|records| - 1].key := records[|records| - 1].correct]
  }

  function Keys(records: seq<Record>): seq<Key> { seq(|records|, i requires 0 <= i < |records| => records[i].key) }

  lemma {:induction false} ByKeyKeys(records: seq<Record>)
    ensures ByKey(records).Keys == Elements(Keys(records))
  {
    if records != [] {
      var rest, last := records[..|records| - 1], records[|records| - 1];
      ByKeyKeys(rest);
      assert Keys(records) == Keys(rest) + [last.key];
      ElementsSnoc(Keys(rest), last.key);
    }
  }

  /** With distinct keys nothing is replaced: every record is found under its key. */
  lemma {:induction false} ByKeyHoldsEveryRecord(records: seq<Record>, i: nat)
    requires Distinct(Keys(records)) && i < |records|
    ensures CorrectAt(ByKey(records), records[i].key) <==> records[i].correct
  {
    var rest := records[..|records| - 1];
    assert Keys(rest) == Keys(records)[..|rest|];
    if i < |rest| {
      assert Keys(records)[i] != Keys(records)[|rest|];
      ByKeyHoldsEveryRecord(rest, i);
    }
  }

  /** A key repeated in a file keeps the correctness of its last row. */
  lemma {:induction false} LastRowOfAKeyStays(records: seq<Record>, i: nat)
    requires i < |records| && forall j :: i < j < |records| ==> records[j].key != records[i].key
    ensures records[i].key in ByKey(records) && ByKey(records)[records[i].key] == records[i].correct
  {
    if i < |records| - 1 {
      LastRowOfAKeyStays(records[..|records| - 1], i);
    }
  }

  predicate CorrectAt(side: map<Key, bool>, k: Key) { k in side && side[k] }

  function Both(full: map<Key, bool>, rkv: map<Key, bool>): Key -> bool { k => CorrectAt(full, k) && CorrectAt(rkv, k) }

  function FullOnly(full: map<Key, bool>, rkv: map<Key, bool>): Key -> bool { k => CorrectAt(full, k) && !CorrectAt(rkv, k) }

  function RkvOnly(full: map<Key, bool>, rkv: map<Key, bool>): Key -> bool { k => CorrectAt(rkv, k) && !CorrectAt(full, k) }

  function CorrectIn(side: map<Key, bool>): Key -> bool { k => CorrectAt(side, k) }

  datatype Screen = Screen(
    pairs: nat, fullCorrect: nat, rkvCorrect: nat, both: nat, fullOnly: nat, rkvOnly: nat,
    difference: Option<real>, plausible: bool)

  /** `build_accuracy_screen`. `shared` is the common keys in sorted order. */
  method BuildAccuracyScreen(fullRecords: seq<Record>, rkvRecords: seq<Record>, shared: seq<Key>, settings: Settings)
    returns (s: Screen)
    requires Distinct(shared) && Elements(shared) == ByKey(fullRecords).Keys * ByKey(rkvRecords).Keys
    ensures s == ScreenOf(ByKey(fullRecords), ByKey(rkvRecords), shared, settings)
  {
    var full, rkv := ByKey(fullRecords), ByKey(rkvRecords);
    var fullCorrect, rkvCorrect, both, fullOnly, rkvOnly := 0, 0, 0, 0, 0;
    for n := 0 to |shared|
      invariant fullCorrect == Count(shared[..n], CorrectIn(full)) && rkvCorrect == Count(shared[..n], CorrectIn(rkv))
      invariant both == Count(shared[..n], Both(full, rkv))
      invariant fullOnly == Count(shared[..n], FullOnly(full, rkv)) && rkvOnly == Count(shared[..n], RkvOnly(full, rkv))
    {
      var k := shared[n];
      assert shared[..n + 1][..n] == shared[..n];
      assert k in Elements(shared);
      if full[k] { fullCorrect := fullCorrect + 1; }
      if rkv[k] { rkvCorrect := rkvCorrect + 1; }
      if full[k] && rkv[k] { both := both + 1; }
      if full[k] && !rkv[k] { fullOnly := fullOnly + 1; }
      if rkv[k] && !full[k] { rkvOnly := rkvOnly + 1; }
    }
    assert shared[..|shared|] == shared;
    var difference := if shared == [] then None else Some(Mean(rkvCorrect as real, |shared|) - Mean(fullCorrect as real, |shared|));
    s := Screen(|shared|, fullCorrect, rkvCorrect, both, fullOnly, rkvOnly, difference,
                difference.Some? && difference.value >= -settings.maxPilotAccuracyDrop);
  }

  function ScreenOf(full: map<Key, bool>, rkv: map<Key, bool>, shared: seq<Key>, settings: Settings): Screen {
    var fullCorrect, rkvCorrect := Count(shared, CorrectIn(full)), Count(shared, CorrectIn(rkv));
    var difference := if shared == [] then None else Some(Mean(rkvCorrect as real, |shared|) - Mean(fullCorrect as real, |shared|));
    Screen(|shared|, fullCorrect, rkvCorrect, Count(shared, Both(full, rkv)),
           Count(shared, FullOnly(full, rkv)), Count(shared, RkvOnly(full, rkv)), difference,
           difference.Some? && difference.value >= -settings.maxPilotAccuracyDrop)
  }

  /** The screen told from the two files' keyed correctness alone, by the shared keys each side has
      right; the difference is the R-KV share of them minus the FullKV share. */
  lemma ScreenCounts(full: map<Key, bool>, rkv: map<Key, bool>, shared: seq<Key>, settings: Settings,
                     fullRight: set<Key>, rkvRight: set<Key>)
    requires Distinct(shared) && Elements(shared) == full.Keys * rkv.Keys
    requires forall k :: k in fullRight <==> k in full && k in rkv && full[k]
    requires forall k :: k in rkvRight <==> k in full && k in rkv && rkv[k]
    ensures var s, n := ScreenOf(full, rkv, shared, settings), |full.Keys * rkv.Keys|;
            && s.pairs == n && s.fullCorrect == |fullRight| && s.rkvCorrect == |rkvRight|
            && s.both == |fullRight * rkvRight| && s.fullOnly == |fullRight - rkvRight| && s.rkvOnly == |rkvRight - fullRight|
            && (n == 0 ==> s.difference.None? && !s.plausible)
            && (n > 0 ==>
                 && s.difference == Some(|rkvRight| as real / n as real - |fullRight| as real / n as real)
                 && (s.plausible <==> s.difference.value >= -settings.maxPilotAccuracyDrop))
  {
    SharesCounted(full, rkv, shared, fullRight, rkvRight);
    DistinctIffCardinality(shared);
    hide Count, Distinct, CorrectIn, Both, FullOnly, RkvOnly;
  }

  lemma SharesCounted(full: map<Key, bool>, rkv: map<Key, bool>, shared: seq<Key>, fullRight: set<Key>, rkvRight: set<Key>)
    requires Distinct(shared) && Elements(shared) == full.Keys * rkv.Keys
    requires forall k :: k in fullRight <==> k in full && k in rkv && full[k]
    requires forall k :: k in rkvRight <==> k in full && k in rkv && rkv[k]
    ensures Count(shared, CorrectIn(full)) == |fullRight| && Count(shared, CorrectIn(rkv)) == |rkvRight|
    ensures Count(shared, Both(full, rkv)) == |fullRight * rkvRight|
    ensures Count(shared, FullOnly(full, rkv)) == |fullRight - rkvRight| && Count(shared, RkvOnly(full, rkv)) == |rkvRight - fullRight|
  {
    hide Count, Distinct;
    assert forall k :: k in shared <==> k in Elements(shared);
    CountIsCardinality(shared, CorrectIn(full), fullRight);
    CountIsCardinality(shared, CorrectIn(rkv), rkvRight);
    CountIsCardinality(shared, Both(full, rkv), fullRight * rkvRight);
    CountIsCardinality(shared, FullOnly(full, rkv), fullRight - rkvRight);
    CountIsCardinality(shared, RkvOnly(full, rkv), rkvRight - fullRight);
  }

  /** How many more losses than gains the settings allow among n pairs. */
  function AllowedLoss(drop: real, n: nat): real { drop * n as real }

  /** The screen depends on discordant pairs only: its difference is (rkv_only - full_only) / n,
      and it is plausible exactly when there are pairs and full_only - rkv_only is within the
      allowed drop of n. */
  lemma ScreenRestsOnDiscordantPairs(full: map<Key, bool>, rkv: map<Key, bool>, shared: seq<Key>, settings: Settings)
    ensures var s := ScreenOf(full, rkv, shared, settings);
            && s.fullCorrect == s.both + s.fullOnly && s.rkvCorrect == s.both + s.rkvOnly
            && s.both + s.fullOnly + s.rkvOnly <= s.pairs
            && (s.pairs > 0 ==> s.difference == Some(Mean((s.rkvOnly - s.fullOnly) as real, s.pairs)))
            && (s.plausible <==> s.pairs > 0 && (s.fullOnly - s.rkvOnly) as real <= AllowedLoss(settings.maxPilotAccuracyDrop, s.pairs))
  {
    var s := ScreenOf(full, rkv, shared, settings);
    CountSplit(shared, CorrectIn(full), Both(full, rkv), FullOnly(full, rkv));
    CountSplit(shared, CorrectIn(rkv), Both(full, rkv), RkvOnly(full, rkv));
    CountDisjoint(shared, CorrectIn(full), RkvOnly(full, rkv));
    hide Count, CorrectIn, Both, FullOnly, RkvOnly, Mean, AllowedLoss;
    Discordant(s.fullCorrect, s.rkvCorrect, s.both, s.fullOnly, s.rkvOnly, s.pairs, settings.maxPilotAccuracyDrop);
  }

  lemma Discordant(fullCorrect: nat, rkvCorrect: nat, both: nat, fullOnly: nat, rkvOnly: nat, n: nat, drop: real)
    requires fullCorrect == both + fullOnly && rkvCorrect == both + rkvOnly
    ensures Mean(rkvCorrect as real, n) - Mean(fullCorrect as real, n) == Mean((rkvOnly - fullOnly) as real, n)
    ensures n > 0 ==> (Mean((rkvOnly - fullOnly) as real, n) >= -drop <==> (fullOnly - rkvOnly) as real <= AllowedLoss(drop, n))
  {
    MeanOfSum(rkvCorrect as real, fullCorrect as real, n);
    assert rkvCorrect as real - fullCorrect as real == (rkvOnly - fullOnly) as real;
    if n > 0 {
      WithinDrop((fullOnly - rkvOnly) as real, n as real, drop);
    }
  }

  lemma WithinDrop(lost: real, n: real, drop: real)
    requires n > 0.0
    ensures (-lost) / n >= -drop <==> lost <= drop * n
  {
    var q := lost / n;
    assert q * n == lost;
    assert (-lost) / n == -q;
    assert drop * n - lost == (drop - q) * n;
  }

  lemma {:induction false} CountSplit<T>(xs: seq<T>, whole: T -> bool, a: T -> bool, b: T -> bool)
    requires forall i :: 0 <= i < |xs| ==> (whole(xs[i]) <==> a(xs[i]) || b(xs[i])) && !(a(xs[i]) && b(xs[i]))
    ensures Count(xs, whole) == Count(xs, a) + Count(xs, b)
  {
    if xs != [] {
      CountSplit(xs[..|xs| - 1], whole, a, b);
    }
  }

  lemma {:induction false} CountDisjoint<T>(xs: seq<T>, a: T -> bool, b: T -> bool)
    requires forall i :: 0 <= i < |xs| ==> !(a(xs[i]) && b(xs[i]))
    ensures Count(xs, a) + Count(xs, b) <= |xs|
  {
    if xs != [] {
      CountDisjoint(xs[..|xs| - 1], a, b);
    }
  }

  // ---------------------------------------------------------------- the strict gate

  datatype Reason =
    | FullCount | RkvCount | SchemaInvalid(index: nat)
    | DuplicateFullKeys | DuplicateRkvKeys | KeySetsDiffer
    | FullIdentities | RkvIdentities | MixedIdentities
    | FullCondition | RkvConditionsInconsistent | RkvConditionUnexpected
    | Implausible

  /** `_validate`: the valid rows, and one reason for every other. */
  method ValidateRows(rows: seq<Row>) returns (records: seq<Record>, reasons: seq<Reason>)
    ensures records == ValidOf(rows)
    ensures reasons == [] <==> forall i :: 0 <= i < |rows| ==> rows[i].WellFormed?
    ensures (reasons == []) == (|records| == |rows|)
  {
    records, reasons := [], [];
    for n := 0 to |rows|
      invariant records == ValidOf(rows[..n])
      invariant reasons == [] <==> forall i :: 0 <= i < n ==> rows[i].WellFormed?
      invariant |records| + |reasons| == n
    {
      assert rows[..n + 1][..n] == rows[..n];
      if rows[n].WellFormed? { records := records + [rows[n].record]; } else { reasons := reasons + [SchemaInvalid(n)]; }
    }
    assert rows[..|rows|] == rows;
  }

  function ValidOf(rows: seq<Row>): seq<Record> {
    if rows == [] then [] else
      ValidOf(rows[..|rows| - 1]) + (if rows[|rows| - 1].WellFormed? then [rows[|rows| - 1].record] else [])
  }

  /** The valid rows in file order, the others left out. */
  lemma ValidRowsAre(before: seq<Row>, row: Row)
    ensures ValidOf([]) == []
    ensures ValidOf(before + [row]) == if row.WellFormed? then ValidOf(before) + [row.record] else ValidOf(before)
  {
    assert (before + [row])[..|before|] == before;
  }

  function Identities(records: seq<Record>): set<string> { set r | r in records :: r.identity }

  function Conditions(records: seq<Record>): set<string> { set r | r in records :: r.condition }

  /** What the gate is meant to establish about the two files. */
  ghost predicate Paired(fullRows: seq<Row>, rkvRows: seq<Row>, expected: nat) {
    && |fullRows| == expected && |rkvRows| == expected
    && (forall i :: 0 <= i < |fullRows| ==> fullRows[i].WellFormed?)
    && (forall i :: 0 <= i < |rkvRows| ==> rkvRows[i].WellFormed?)
    && Distinct(Keys(ValidOf(fullRows))) && Distinct(Keys(ValidOf(rkvRows)))
    && Elements(Keys(ValidOf(fullRows))) == Elements(Keys(ValidOf(rkvRows)))
  }

  /** One identity throughout, the expected one if there is one; each file under its own condition. */
  ghost predicate Coherent(full: seq<Record>, rkv: seq<Record>, identity: Option<string>, condition: Option<string>) {
    && (forall r, s :: r in full + rkv && s in full + rkv ==> r.identity == s.identity)
    && (identity.Some? ==> forall r :: r in full + rkv ==> r.identity == identity.value)
    && (forall r :: r in full ==> r.condition == "full")
    && (forall r, s :: r in rkv && s in rkv ==> r.condition == s.condition)
    && (condition.Some? ==> forall r :: r in rkv ==> r.condition == condition.value)
  }

  method CheckKeys(full: seq<Record>, rkv: seq<Record>) returns (reasons: seq<Reason>)
    ensures reasons == [] <==>
              Distinct(Keys(full)) && Distinct(Keys(rkv)) && Elements(Keys(full)) == Elements(Keys(rkv))
  {
    reasons := [];
    DistinctIffCardinality(Keys(full));
    DistinctIffCardinality(Keys(rkv));
    if |Elements(Keys(full))| != |Keys(full)| { reasons := reasons + [DuplicateFullKeys]; }
    if |Elements(Keys(rkv))| != |Keys(rkv)| { reasons := reasons + [DuplicateRkvKeys]; }
    if Elements(Keys(full)) != Elements(Keys(rkv)) { reasons := reasons + [KeySetsDiffer]; }
  }

  lemma AtMostOneIff(s: set<string>)
    ensures |s| <= 1 <==> forall a, b :: a in s && b in s ==> a == b
  {
    if exists a, b :: a in s && b in s && a != b {
      var a, b :| a in s && b in s && a != b;
      CardinalityMonotone({a, b}, s);
    } else if exists a :: a in s {
      var a :| a in s;
      assert s == {a};
    }
  }

  method CheckCoherence(full: seq<Record>, rkv: seq<Record>, identity: Option<string>, condition: Option<string>)
    returns (reasons: seq<Reason>)
    ensures reasons == [] <==> Coherent(full, rkv, identity, condition)
  {
    reasons := [];
    var combined := Identities(full) + Identities(rkv) + if identity.Some? then {identity.value} else {};
    if |Identities(full)| > 1 { reasons := reasons + [FullIdentities]; }
    if |Identities(rkv)| > 1 { reasons := reasons + [RkvIdentities]; }
    if |combined| > 1 { reasons := reasons + [MixedIdentities]; }
    CardinalityMonotone(Identities(full), combined);
    CardinalityMonotone(Identities(rkv), combined);
    OneIdentityIff(full, rkv, identity);
    ghost var identitiesAgree := reasons == [];
    if Conditions(full) - {"full"} != {} { reasons := reasons + [FullCondition]; }
    var conditions := Conditions(rkv);
    if |conditions| > 1 {
      reasons := reasons + [RkvConditionsInconsistent];
    } else if condition.Some? && conditions != {} && conditions != {condition.value} {
      reasons := reasons + [RkvConditionUnexpected];
    }
    ConditionsIff(full, rkv, condition);
  }

  lemma OneIdentityIff(full: seq<Record>, rkv: seq<Record>, identity: Option<string>)
    ensures |Identities(full) + Identities(rkv) + if identity.Some? then {identity.value} else {}| <= 1 <==>
              && (forall r, s :: r in full + rkv && s in full + rkv ==> r.identity == s.identity)
              && (identity.Some? ==> forall r :: r in full + rkv ==> r.identity == identity.value)
  {
    var combined := Identities(full) + Identities(rkv) + if identity.Some? then {identity.value} else {};
    AtMostOneIff(combined);
    assert forall r :: r in full + rkv ==> r.identity in combined;
  }

  lemma ConditionsIff(full: seq<Record>, rkv: seq<Record>, condition: Option<string>)
    ensures Conditions(full) - {"full"} == {} <==> forall r :: r in full ==> r.condition == "full"
    ensures |Conditions(rkv)| <= 1 && !(condition.Some? && Conditions(rkv) != {} && Conditions(rkv) != {condition.value}) <==>
              && (forall r, s :: r in rkv && s in rkv ==> r.condition == s.condition)
              && (condition.Some? ==> forall r :: r in rkv ==> r.condition == condition.value)
  {
    assert forall r :: r in full && r.condition != "full" ==> r.condition in Conditions(full) - {"full"};
    AtMostOneIff(Conditions(rkv));
    assert forall r :: r in rkv ==> r.condition in Conditions(rkv);
  }

  /** `build_strict_accuracy_gate`: it passes exactly on coherent files in bijection, with at
      least one pair and an accuracy drop within bounds. `shared` is the common keys, sorted. */
  method BuildStrictAccuracyGate(fullRows: seq<Row>, rkvRows: seq<Row>, expected: nat, settings: Settings,
                                 identity: Option<string>, condition: Option<string>, shared: seq<Key>)
    returns (reasons: seq<Reason>, screen: Option<Screen>)
    requires Distinct(shared) && Elements(shared) == ByKey(ValidOf(fullRows)).Keys * ByKey(ValidOf(rkvRows)).Keys
    ensures reasons == [] <==>
              && Paired(fullRows, rkvRows, expected)
              && Coherent(ValidOf(fullRows), ValidOf(rkvRows), identity, condition)
              && ScreenOf(ByKey(ValidOf(fullRows)), ByKey(ValidOf(rkvRows)), shared, settings).plausible
    ensures screen.Some? <==> |ValidOf(fullRows)| == |fullRows| && |ValidOf(rkvRows)| == |rkvRows|
    ensures screen.Some? ==> screen.value == ScreenOf(ByKey(ValidOf(fullRows)), ByKey(ValidOf(rkvRows)), shared, settings)
  {
    reasons := [];
    if |fullRows| != expected { reasons := reasons + [FullCount]; }
    if |rkvRows| != expected { reasons := reasons + [RkvCount]; }
    var full, fullInvalid := ValidateRows(fullRows);
    var rkv, rkvInvalid := ValidateRows(rkvRows);
    reasons := reasons + fullInvalid + rkvInvalid;
    var onKeys := CheckKeys(full, rkv);
    var onCoherence := CheckCoherence(full, rkv, identity, condition);
    reasons := reasons + onKeys + onCoherence;
    hide Coherent, ScreenOf, Distinct;
    screen := None;
    if |full| == |fullRows| && |rkv| == |rkvRows| {
      var s := BuildAccuracyScreen(full, rkv, shared, settings);
      if !s.plausible { reasons := reasons + [Implausible]; }
      screen := Some(s);
    }
  }

  /** What a passed gate is worth: at least one pair, every expected record in exactly one of
      them, and the difference and the drop both about all of them. */
  lemma PassedGateIsTotal(fullRows: seq<Row>, rkvRows: seq<Row>, expected: nat, settings: Settings, shared: seq<Key>)
    requires Distinct(shared) && Elements(shared) == ByKey(ValidOf(fullRows)).Keys * ByKey(ValidOf(rkvRows)).Keys
    requires Paired(fullRows, rkvRows, expected)
    requires ScreenOf(ByKey(ValidOf(fullRows)), ByKey(ValidOf(rkvRows)), shared, settings).plausible
    ensures var s := ScreenOf(ByKey(ValidOf(fullRows)), ByKey(ValidOf(rkvRows)), shared, settings);
            && expected >= 1 && s.pairs == expected
            && Elements(shared) == Elements(Keys(ValidOf(fullRows))) == Elements(Keys(ValidOf(rkvRows)))
            && s.difference == Some(Mean((s.rkvOnly - s.fullOnly) as real, expected))
            && (s.fullOnly - s.rkvOnly) as real <= AllowedLoss(settings.maxPilotAccuracyDrop, expected)
  {
    PairsAreAll(fullRows, rkvRows, expected, shared);
    hide Paired, Distinct, Elements, Keys, Mean, AllowedLoss, Count;
    ScreenRestsOnDiscordantPairs(ByKey(ValidOf(fullRows)), ByKey(ValidOf(rkvRows)), shared, settings);
  }

  /** And coherence: one identity in both files, the expected one if there is one; FullKV rows are run
      under "full", R-KV rows all under one condition, the expected one if there is one. */
  lemma CoherentIff(full: seq<Record>, rkv: seq<Record>, identity: Option<string>, condition: Option<string>)
    ensures Coherent(full, rkv, identity, condition) <==>
              && |Identities(full) + Identities(rkv) + if identity.Some? then {identity.value} else {}| <= 1
              && Conditions(full) <= {"full"}
              && |Conditions(rkv)| <= 1 && (condition.Some? ==> Conditions(rkv) <= {condition.value})
  {
    OneIdentityIff(full, rkv, identity);
    ConditionsIff(full, rkv, condition);
    var conditions := Conditions(rkv);
    assert Conditions(full) - {"full"} == {} <==> Conditions(full) <= {"full"};
    assert condition.Some? ==> (conditions <= {condition.value} <==> conditions == {} || conditions == {condition.value});
    hide Identities, Conditions;
  }

  lemma PairsAreAll(fullRows: seq<Row>, rkvRows: seq<Row>, expected: nat, shared: seq<Key>)
    requires Distinct(shared) && Elements(shared) == ByKey(ValidOf(fullRows)).Keys * ByKey(ValidOf(rkvRows)).Keys
    requires Paired(fullRows, rkvRows, expected)
    ensures |shared| == expected
    ensures Elements(shared) == Elements(Keys(ValidOf(fullRows))) == Elements(Keys(ValidOf(rkvRows)))
  {
    hide Distinct;
    AllValid(fullRows);
    ByKeyKeys(ValidOf(fullRows));
    ByKeyKeys(ValidOf(rkvRows));
    var a, b := Keys(ValidOf(fullRows)), Keys(ValidOf(rkvRows));
    assert |a| == expected;
    CommonIsAll(shared, a, b);
  }

  lemma CommonIsAll(shared: seq<Key>, a: seq<Key>, b: seq<Key>)
    requires Distinct(shared) && Distinct(a) && Elements(a) == Elements(b) && Elements(shared) == Elements(a) * Elements(b)
    ensures |shared| == |a| && Elements(shared) == Elements(a)
  {
    DistinctIffCardinality(shared);
    DistinctIffCardinality(a);
  }

  lemma {:induction false} AllValid(rows: seq<Row>)
    requires forall i :: 0 <= i < |rows| ==> rows[i].WellFormed?
    ensures |ValidOf(rows)| == |rows|
  {
    if rows != [] {
      AllValid(rows[..|rows| - 1]);
    }
  }

  /** Without the gate, one common key out of many can look plausible. */
  lemma ScreenAloneCanMislead(settings: Settings)
    requires settings.Valid()
    ensures exists full: seq<Record>, rkv: seq<Record>, shared: seq<Key> ::
              && Distinct(shared) && Elements(shared) == ByKey(full).Keys * ByKey(rkv).Keys
              && Distinct(Keys(full)) && |full| == 2 && |rkv| == 1
              && ScreenOf(ByKey(full), ByKey(rkv), shared, settings).plausible
  {
    var k0, k1 := Key(0, 0), Key(1, 0);
    var r0, r1 := Record(k0, "", "full", true), Record(k1, "", "full", true);
    var full, rkv, shared := [r0, r1], [r0], [k0];
    assert full[..1] == [r0] && rkv[..0] == [] && full[..1][..0] == [];
    assert ByKey(rkv) == map[k0 := true];
    assert ByKey(full[..1]) == map[k0 := true];
    assert ByKey(full) == map[k0 := true, k1 := true];
    assert Elements(shared) == {k0} == ByKey(full).Keys * ByKey(rkv).Keys;
    ScreenRestsOnDiscordantPairs(ByKey(full), ByKey(rkv), shared, settings);
    assert shared[..0] == [];
    assert Count(shared, FullOnly(ByKey(full), ByKey(rkv))) == 0;
  }
}

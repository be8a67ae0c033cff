/** Shared vocabulary: optional values, results, and the "no duplicates" test that
    the Python code writes as `len(xs) == len(set(xs))`. */
module Prelude {
  datatype Option<+T> = None | Some(value: T)

  datatype Result<+T, +E> = Ok(value: T) | Err(error: E)

  function Min(a: int, b: int): int { if a <= b then a else b }

  function Max(a: int, b: int): int { if a >= b then a else b }

  predicate Distinct<T(==)>(s: seq<T>) {
    forall i, j :: 0 <= i < j < |s| ==> s[i] != s[j]
  }

  function Elements<T>(s: seq<T>): set<T> {
    set x | x in s
  }

  lemma ElementsSnoc<T>(s: seq<T>, x: T)
    ensures Elements(s + [x]) == Elements(s) + {x}
  {
  }

  /** `len(xs) == len(set(xs))` holds exactly when `xs` has no duplicate. */
  lemma {:induction false} DistinctIffCardinality<T>(s: seq<T>)
    ensures |Elements(s)| <= |s|
    ensures Distinct(s) <==> |Elements(s)| == |s|
  {
    if s == [] {
      assert Elements(s) == {};
    } else {
      var rest, last := s[..|s| - 1], s[|s| - 1];
      DistinctIffCardinality(rest);
      assert s == rest + [last];
      assert Elements(s) == Elements(rest) + {last};
      if last in rest {
        assert Elements(s) == Elements(rest);
        var i :| 0 <= i < |rest| && rest[i] == last;
        assert s[i] == s[|s| - 1];
      } else if Distinct(rest) {
        assert Distinct(s);
      } else {
        var i, j :| 0 <= i < j < |rest| && rest[i] == rest[j];
        assert s[i] == s[j];
      }
    }
  }

  /** The largest member of a nonempty sequence of integers. */
  function Largest(xs: seq<int>): (m: int)
    requires xs != []
    ensures m in xs && forall x :: x in xs ==> x <= m
  {
    if |xs| == 1 then xs[0]
    else
      assert xs == [xs[0]] + xs[1..];
      Max(xs[0], Largest(xs[1..]))
  }

  lemma CardinalityMonotone<T>(a: set<T>, b: set<T>)
    requires a <= b
    ensures |a| <= |b|
  {
    assert b == a + (b - a);
  }

  /** How many members satisfy `p`: `sum(1 for x in xs if p(x))`. */
  function Count<T>(xs: seq<T>, p: T -> bool): (n: nat)
    ensures n <= |xs|
  {
    if xs == [] then 0 else Count(xs[..|xs| - 1], p) + (if p(xs[|xs| - 1]) then 1 else 0)
  }

  lemma CountSnoc<T>(xs: seq<T>, x: T, p: T -> bool)
    ensures Count(xs + [x], p) == Count(xs, p) + (if p(x) then 1 else 0)
  {
    assert (xs + [x])[..|xs|] == xs;
  }

  lemma {:induction false} CountMonotone<T>(xs: seq<T>, p: T -> bool, q: T -> bool)
    requires forall i :: 0 <= i < |xs| && p(xs[i]) ==> q(xs[i])
    ensures Count(xs, p) <= Count(xs, q)
  {
    if xs != [] {
      CountMonotone(xs[..|xs| - 1], p, q);
    }
  }

  /** Among distinct members, counting is the size of a set. */
  lemma {:induction false} CountIsCardinality<T>(xs: seq<T>, p: T -> bool, those: set<T>)
    requires Distinct(xs) && forall x :: x in those <==> x in xs && p(x)
    ensures Count(xs, p) == |those|
  {
    if xs != [] {
      var rest, last := xs[..|xs| - 1], xs[|xs| - 1];
      assert last !in rest && forall x :: x in xs <==> x in rest || x == last;
      CountIsCardinality(rest, p, those - {last});
      assert p(last) ==> those == (those - {last}) + {last};
    }
  }

  predicate HoldsAt<T>(xs: seq<T>, p: T -> bool, i: int) { 0 <= i < |xs| && p(xs[i]) }

  /** Counting members is counting the places that hold them. */
  lemma {:induction false} CountPlaces<T>(xs: seq<T>, p: T -> bool, places: set<int>)
    requires forall i :: i in places <==> HoldsAt(xs, p, i)
    ensures Count(xs, p) == |places|
  {
    if xs == [] {
      var none: set<int> := {};
      forall i: int
        ensures i in places <==> i in none
      {
        assert i in places <==> HoldsAt(xs, p, i);
      }
      assert places == none;
    } else {
      var rest, n := xs[..|xs| - 1], |xs| - 1;
      assert forall i :: HoldsAt(rest, p, i) <==> HoldsAt(xs, p, i) && i != n;
      CountPlaces(rest, p, places - {n});
      assert p(xs[n]) ==> HoldsAt(xs, p, n) && places == (places - {n}) + {n};
      assert !p(xs[n]) ==> !HoldsAt(xs, p, n) && places == places - {n};
    }
  }

  lemma {:induction false} CountEverything<T>(xs: seq<T>, p: T -> bool)
    requires forall i :: 0 <= i < |xs| ==> p(xs[i])
    ensures Count(xs, p) == |xs|
  {
    if xs != [] {
      CountEverything(xs[..|xs| - 1], p);
    }
  }

  /** Sum of `f` over the members, in order. */
  function SumOf<T>(xs: seq<T>, f: T -> real): real {
    if xs == [] then 0.0 else SumOf(xs[..|xs| - 1], f) + f(xs[|xs| - 1])
  }

  lemma SumOfSnoc<T>(xs: seq<T>, x: T, f: T -> real)
    ensures SumOf(xs + [x], f) == SumOf(xs, f) + f(x)
  {
    assert (xs + [x])[..|xs|] == xs;
  }

  /** Pointwise order carries over to sums. */
  lemma {:induction false} SumOfMonotone<T>(xs: seq<T>, f: T -> real, g: T -> real)
    requires forall i :: 0 <= i < |xs| ==> f(xs[i]) <= g(xs[i])
    ensures SumOf(xs, f) <= SumOf(xs, g)
  {
    if xs != [] {
      SumOfMonotone(xs[..|xs| - 1], f, g);
    }
  }

  lemma {:induction false} SumOfConcat<T>(xs: seq<T>, ys: seq<T>, f: T -> real)
    ensures SumOf(xs + ys, f) == SumOf(xs, f) + SumOf(ys, f)
  {
    if ys == [] {
      assert xs + ys == xs;
    } else {
      SumOfConcat(xs, ys[..|ys| - 1], f);
      assert (xs + ys)[..|xs + ys| - 1] == xs + ys[..|ys| - 1];
    }
  }

  /** The sum over distinct members depends on which they are, not on their order. */
  lemma {:induction false} SumOfSameElements<T>(xs: seq<T>, ys: seq<T>, f: T -> real)
    requires Distinct(xs) && Distinct(ys) && Elements(xs) == Elements(ys)
    ensures SumOf(xs, f) == SumOf(ys, f)
  {
    assert ys != [] ==> ys[0] in Elements(ys);
    if xs != [] {
      var last, rest := xs[|xs| - 1], xs[..|xs| - 1];
      assert last in Elements(ys);
      var i :| 0 <= i < |ys| && ys[i] == last;
      var others := ys[..i] + ys[i + 1..];
      WithoutOne(xs, |xs| - 1, rest);
      WithoutOne(ys, i, others);
      SumOfSameElements(rest, others, f);
      SumOfRemoved(ys, i, f);
    }
  }

  lemma SumOfRemoved<T>(xs: seq<T>, i: nat, f: T -> real)
    requires i < |xs|
    ensures SumOf(xs, f) == SumOf(xs[..i] + xs[i + 1..], f) + f(xs[i])
  {
    hide SumOf;
    var a, x, b := xs[..i], xs[i], xs[i + 1..];
    assert xs == a + [x] + b;
    SumOfMiddle(a, x, b, f);
  }

  lemma SumOfMiddle<T>(a: seq<T>, x: T, b: seq<T>, f: T -> real)
    ensures SumOf(a + [x] + b, f) == SumOf(a + b, f) + f(x)
  {
    hide SumOf;
    SumOfConcat(a + [x], b, f);
    SumOfConcat(a, b, f);
    SumOfSnoc(a, x, f);
  }

  lemma WithoutOne<T>(xs: seq<T>, i: nat, others: seq<T>)
    requires Distinct(xs) && i < |xs| && others == xs[..i] + xs[i + 1..]
    ensures Distinct(others) && Elements(others) == Elements(xs) - {xs[i]}
  {
    forall x | x in xs && x != xs[i]
      ensures x in others
    {
      var j :| 0 <= j < |xs| && xs[j] == x;
      assert x == others[if j < i then j else j - 1];
    }
  }

  lemma {:induction false} SumOfEqual<T>(xs: seq<T>, f: T -> real, g: T -> real)
    requires forall i :: 0 <= i < |xs| ==> f(xs[i]) == g(xs[i])
    ensures SumOf(xs, f) == SumOf(xs, g)
  {
    if xs != [] {
      SumOfEqual(xs[..|xs| - 1], f, g);
    }
  }

  /** Row sums and column sums of a table agree. */
  function Across<X, Y>(g: (X, Y) -> real, x: X): Y -> real { y => g(x, y) }

  function Down<X, Y>(g: (X, Y) -> real, y: Y): X -> real { x => g(x, y) }

  function Row<X, Y>(g: (X, Y) -> real, ys: seq<Y>): X -> real { x => SumOf(ys, Across(g, x)) }

  function Column<X, Y>(g: (X, Y) -> real, xs: seq<X>): Y -> real { y => SumOf(xs, Down(g, y)) }

  lemma {:induction false} ExchangeSums<X, Y>(xs: seq<X>, ys: seq<Y>, g: (X, Y) -> real)
    ensures SumOf(xs, Row(g, ys)) == SumOf(ys, Column(g, xs))
  {
    if xs == [] {
      SumOfZero(ys, Column(g, xs));
    } else {
      var rest, last := xs[..|xs| - 1], xs[|xs| - 1];
      ExchangeSums(rest, ys, g);
      SumOfSum(ys, Column(g, xs), Column(g, rest), Across(g, last));
    }
  }

  lemma {:induction false} SumOfZero<T>(xs: seq<T>, f: T -> real)
    requires forall i :: 0 <= i < |xs| ==> f(xs[i]) == 0.0
    ensures SumOf(xs, f) == 0.0
  {
    if xs != [] {
      SumOfZero(xs[..|xs| - 1], f);
    }
  }

  /** Sums add up pointwise. */
  lemma {:induction false} SumOfSum<T>(xs: seq<T>, h: T -> real, f: T -> real, g: T -> real)
    requires forall i :: 0 <= i < |xs| ==> h(xs[i]) == f(xs[i]) + g(xs[i])
    ensures SumOf(xs, h) == SumOf(xs, f) + SumOf(xs, g)
  {
    if xs != [] {
      SumOfSum(xs[..|xs| - 1], h, f, g);
    }
  }

  /** A total averaged over a count. */
  function Mean(total: real, count: nat): real { if count == 0 then 0.0 else total / count as real }

  /** A common count may be taken out of a sum. */
  lemma {:induction false} SumOfMeans<T>(xs: seq<T>, h: T -> real, f: T -> real, count: nat)
    requires forall i :: 0 <= i < |xs| ==> h(xs[i]) == Mean(f(xs[i]), count)
    ensures SumOf(xs, h) == Mean(SumOf(xs, f), count)
  {
    if xs != [] {
      SumOfMeans(xs[..|xs| - 1], h, f, count);
      MeanOfSum(SumOf(xs[..|xs| - 1], f), f(xs[|xs| - 1]), count);
    }
  }

  lemma MeanOfSum(a: real, b: real, count: nat)
    ensures Mean(a + b, count) == Mean(a, count) + Mean(b, count)
    ensures Mean(a - b, count) == Mean(a, count) - Mean(b, count)
  {
  }

  lemma SwapMeans(total: real, m: nat, n: nat)
    ensures Mean(Mean(total, m), n) == Mean(Mean(total, n), m)
  {
    if m > 0 && n > 0 {
      SwapDivisors(total, m as real, n as real);
    }
  }

  lemma SwapDivisors(s: real, a: real, b: real)
    requires a > 0.0 && b > 0.0
    ensures s / a / b == s / b / a
  {
    var p, r := s / a, s / b;
    var q := p / b;
    assert q * b == p && p * a == s && r * b == s;
    assert (q * a) * b == r * b;
    Cancel(q * a, r, b);
  }

  lemma Cancel(x: real, y: real, b: real)
    requires b > 0.0 && x * b == y * b
    ensures x == y
  {
    assert (x - y) * b == 0.0;
  }

  /** The members that satisfy `p`, in order. */
  function Filter<T>(xs: seq<T>, p: T -> bool): (r: seq<T>)
    ensures forall i :: 0 <= i < |r| ==> r[i] in xs && p(r[i])
    ensures forall i :: 0 <= i < |xs| && p(xs[i]) ==> xs[i] in r
    ensures Distinct(xs) ==> Distinct(r)
  {
    if xs == [] then [] else
      var rest, last := Filter(xs[..|xs| - 1], p), xs[|xs| - 1];
      if p(last) then rest + [last] else rest
  }

  lemma FilterSnoc<T>(xs: seq<T>, x: T, p: T -> bool)
    ensures Filter(xs + [x], p) == Filter(xs, p) + if p(x) then [x] else []
  {
    assert (xs + [x])[..|xs|] == xs;
  }

  /** The member at `k`, and no other, satisfies `p`. */
  ghost predicate OnlyAt<T>(xs: seq<T>, p: T -> bool, k: int) {
    0 <= k < |xs| && forall i :: 0 <= i < |xs| ==> (p(xs[i]) <==> i == k)
  }

  /** Only one member at a position satisfies `p`: filtering finds exactly it. */
  lemma {:induction false} FilterFindsOne<T>(xs: seq<T>, p: T -> bool, k: nat)
    requires k < |xs| && forall i :: 0 <= i < |xs| ==> (p(xs[i]) <==> i == k)
    ensures Filter(xs, p) == [xs[k]]
  {
    var rest := xs[..|xs| - 1];
    if k < |rest| {
      FilterFindsOne(rest, p, k);
    } else {
      FilterFindsNone(rest, p);
    }
  }

  lemma {:induction false} FilterFindsNone<T>(xs: seq<T>, p: T -> bool)
    requires forall i :: 0 <= i < |xs| ==> !p(xs[i])
    ensures Filter(xs, p) == []
  {
    if xs != [] {
      FilterFindsNone(xs[..|xs| - 1], p);
    }
  }

  lemma SameOnly<T(!new)>(xs: seq<T>, p: T -> bool, q: T -> bool)
    requires forall x :: p(x) <==> q(x)
    ensures forall k :: OnlyAt(xs, p, k) <==> OnlyAt(xs, q, k)
  {
  }

  lemma FilterIsOneIff<T>(xs: seq<T>, p: T -> bool)
    ensures |Filter(xs, p)| == 1 <==> exists k :: OnlyAt(xs, p, k)
    ensures forall k :: OnlyAt(xs, p, k) ==> Filter(xs, p) == [xs[k]]
  {
    hide Filter;
    forall k | OnlyAt(xs, p, k)
      ensures Filter(xs, p) == [xs[k]]
    {
      FilterFindsOne(xs, p, k);
    }
    if |Filter(xs, p)| == 1 {
      var k := OneFound(xs, p);
    }
  }

  lemma {:induction false} OneFound<T>(xs: seq<T>, p: T -> bool) returns (k: nat)
    requires |Filter(xs, p)| == 1
    ensures OnlyAt(xs, p, k)
  {
    var rest, n := xs[..|xs| - 1], |xs| - 1;
    if p(xs[n]) {
      k := n;
      assert Filter(rest, p) == [];
      forall i | 0 <= i < n
        ensures !p(xs[i])
      {
        assert xs[i] == rest[i] && rest[i] !in Filter(rest, p);
      }
    } else {
      k := OneFound(rest, p);
      assert forall i :: 0 <= i < n ==> xs[i] == rest[i];
    }
  }

  lemma {:induction false} FilterKeepsAll<T>(xs: seq<T>, p: T -> bool)
    requires forall i :: 0 <= i < |xs| ==> p(xs[i])
    ensures Filter(xs, p) == xs
  {
    if xs != [] {
      var rest, last := xs[..|xs| - 1], xs[|xs| - 1];
      FilterKeepsAll(rest, p);
      assert rest + [last] == xs;
    }
  }

  /** `f` of every member, joined in order. */
  function FlatMap<T, U>(xs: seq<T>, f: T -> seq<U>): seq<U> {
    if xs == [] then [] else FlatMap(xs[..|xs| - 1], f) + f(xs[|xs| - 1])
  }

  lemma FlatMapSnoc<T, U>(xs: seq<T>, x: T, f: T -> seq<U>)
    ensures FlatMap(xs + [x], f) == FlatMap(xs, f) + f(x)
  {
    assert (xs + [x])[..|xs|] == xs;
  }

  lemma {:induction false} FlatMapConcat<T, U>(xs: seq<T>, ys: seq<T>, f: T -> seq<U>)
    ensures FlatMap(xs + ys, f) == FlatMap(xs, f) + FlatMap(ys, f)
  {
    if ys == [] {
      assert xs + ys == xs;
    } else {
      var rest := ys[..|ys| - 1];
      FlatMapConcat(xs, rest, f);
      assert (xs + ys)[..|xs + ys| - 1] == xs + rest;
      Associative(FlatMap(xs, f), FlatMap(rest, f), f(ys[|ys| - 1]));
    }
  }

  lemma Associative<T>(a: seq<T>, b: seq<T>, c: seq<T>)
    ensures (a + b) + c == a + (b + c)
  {
  }

  // ---------------------------------------------------------------- ratios of reals

  lemma DivideMonotone(a: real, b: real, d: real)
    requires a <= b && d > 0.0
    ensures a / d <= b / d
  {
    assert (b - a) / d >= 0.0;
  }

  lemma SelfRatio(d: real)
    requires d > 0.0
    ensures d / d == 1.0
  {
  }

  /** Comparing two fractions by cross-multiplication. */
  lemma CrossMultiply(a: real, b: real, c: real, d: real)
    requires b > 0.0 && d > 0.0 && a * d <= c * b
    ensures a / b <= c / d
  {
    var p, q := a / b, c / d;
    assert p * b == a && q * d == c;
    assert (q - p) * (b * d) == (q * d) * b - (p * b) * d;
    NonnegativeFactor(q - p, b * d);
  }

  lemma StrictlyBelow(a: real, b: real, c: real)
    requires b > 0.0 && a < b * c
    ensures a / b < c
  {
    var p := a / b;
    assert p * b == a;
    assert (c - p) * b == b * c - a;
    NonnegativeFactor(c - p, b);
    assert p == c ==> p * b == b * c;
  }

  lemma ReciprocalAtMost(p: real, c: real)
    requires p > 0.0 && p * c >= 1.0
    ensures 1.0 / p <= c
  {
    var r := 1.0 / p;
    assert r * p == 1.0;
    assert (c - r) * p == p * c - r * p;
    NonnegativeFactor(c - r, p);
  }

  lemma NonnegativeFactor(x: real, y: real)
    requires y > 0.0 && x * y >= 0.0
    ensures x >= 0.0
  {
  }

  lemma Products(x: real, y: real)
    ensures x >= 0.0 && y >= 0.0 ==> x * y >= 0.0
    ensures x > 0.0 && y > 0.0 ==> x * y > 0.0
  {
  }

  /** A fraction at least `low`, positive, and strictly below `high`. */
  lemma FractionBetween(low: real, high: real) returns (k: nat, n: nat)
    requires 0.0 <= low < high <= 1.0
    ensures 1 <= k <= n && low <= k as real / n as real < high
  {
    var gap, size := high - low, 0.0;
    n, size := LargeEnough(gap);
    var from, to := Spread(low, high, gap, size);
    k := from.Floor + 1;
    CrossMultiply(low, 1.0, k as real, size);
    StrictlyBelow(k as real, size, high);
  }

  lemma Spread(low: real, high: real, gap: real, size: real) returns (from: real, to: real)
    requires 0.0 <= low < high <= 1.0 && gap == high - low && size > 0.0 && size * gap > 1.0
    ensures from == low * size && to == high * size && 0.0 <= from && from + 1.0 < to <= size
  {
    from, to := low * size, high * size;
    var rest := (1.0 - high) * size;
    assert from >= 0.0 && rest >= 0.0;
    assert to == from + size * gap;
    assert size == to + rest;
  }

  /** A count whose product with a positive gap exceeds one. */
  lemma LargeEnough(gap: real) returns (n: nat, size: real)
    requires gap > 0.0
    ensures n >= 1 && size == n as real && size * gap > 1.0
  {
    var r := Reciprocal(gap);
    n := r.Floor + 1;
    size := n as real;
    ExceedsReciprocal(gap, r, size);
  }

  lemma Reciprocal(gap: real) returns (r: real)
    requires gap > 0.0
    ensures r > 0.0 && r * gap == 1.0
  {
    r := 1.0 / gap;
  }

  lemma ExceedsReciprocal(gap: real, r: real, n: real)
    requires gap > 0.0 && r * gap == 1.0 && n > r
    ensures n * gap > 1.0
  {
    var excess := (n - r) * gap;
    assert excess > 0.0;
    assert n * gap == excess + r * gap;
  }
}

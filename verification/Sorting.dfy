/** Python's `list.sort(key=...)`: stable, and with distinct keys independent of the order in
    which the members came. */
module Sorting {
  import opened Prelude

  predicate SortedBy<T(!new)>(xs: seq<T>, key: T -> int) {
    forall i, j :: 0 <= i < j < |xs| ==> key(xs[i]) <= key(xs[j])
  }

  /** `x` goes after every member whose key is not greater. */
  function Insert<T>(x: T, xs: seq<T>, key: T -> int): seq<T> {
    if xs == [] || key(xs[|xs| - 1]) <= key(x) then xs + [x]
    else Insert(x, xs[..|xs| - 1], key) + [xs[|xs| - 1]]
  }

  function SortBy<T>(xs: seq<T>, key: T -> int): seq<T> {
    if xs == [] then [] else Insert(xs[|xs| - 1], SortBy(xs[..|xs| - 1], key), key)
  }

  lemma {:induction false} InsertKeeps<T>(x: T, xs: seq<T>, key: T -> int)
    ensures multiset(Insert(x, xs, key)) == multiset(xs) + multiset{x}
  {
    if xs == [] || key(xs[|xs| - 1]) <= key(x) {
    } else {
      InsertKeeps(x, xs[..|xs| - 1], key);
      LastOut(xs);
    }
  }

  lemma LastOut<T>(xs: seq<T>)
    requires xs != []
    ensures multiset(xs) == multiset(xs[..|xs| - 1]) + multiset{xs[|xs| - 1]}
  {
    assert xs == xs[..|xs| - 1] + [xs[|xs| - 1]];
  }

  lemma {:induction false} InsertMembers<T>(x: T, xs: seq<T>, key: T -> int, i: nat)
    requires i < |Insert(x, xs, key)|
    ensures var y := Insert(x, xs, key)[i]; y == x || y in xs
  {
    if xs == [] || key(xs[|xs| - 1]) <= key(x) {
    } else if i < |Insert(x, xs[..|xs| - 1], key)| {
      InsertMembers(x, xs[..|xs| - 1], key, i);
    }
  }

  lemma {:induction false} InsertSorts<T(!new)>(x: T, xs: seq<T>, key: T -> int)
    requires SortedBy(xs, key)
    ensures SortedBy(Insert(x, xs, key), key)
  {
    if xs == [] || key(xs[|xs| - 1]) <= key(x) {
    } else {
      var rest, last := xs[..|xs| - 1], xs[|xs| - 1];
      InsertSorts(x, rest, key);
      forall i | 0 <= i < |Insert(x, rest, key)|
        ensures key(Insert(x, rest, key)[i]) <= key(last)
      {
        InsertMembers(x, rest, key, i);
      }
    }
  }

  /** Sorting orders the members and loses none. */
  lemma {:induction false} SortBySorts<T(!new)>(xs: seq<T>, key: T -> int)
    ensures SortedBy(SortBy(xs, key), key) && multiset(SortBy(xs, key)) == multiset(xs)
  {
    if xs != [] {
      var rest, last := xs[..|xs| - 1], xs[|xs| - 1];
      SortBySorts(rest, key);
      InsertSorts(last, SortBy(rest, key), key);
      InsertKeeps(last, SortBy(rest, key), key);
      LastOut(xs);
    }
  }

  lemma SortByMembers<T(!new)>(xs: seq<T>, key: T -> int)
    ensures |SortBy(xs, key)| == |xs|
    ensures forall x :: x in SortBy(xs, key) <==> x in xs
  {
    SortBySorts(xs, key);
    assert forall x :: x in SortBy(xs, key) <==> x in multiset(SortBy(xs, key));
    assert forall x :: x in xs <==> x in multiset(xs);
    assert |multiset(xs)| == |multiset(SortBy(xs, key))|;
  }

  /** The members of one key, in order. */
  function OfKey<T>(xs: seq<T>, key: T -> int, k: int): seq<T> {
    if xs == [] then [] else
      OfKey(xs[..|xs| - 1], key, k) + if key(xs[|xs| - 1]) == k then [xs[|xs| - 1]] else []
  }

  lemma OfKeySnoc<T>(xs: seq<T>, x: T, key: T -> int, k: int)
    ensures OfKey(xs + [x], key, k) == OfKey(xs, key, k) + if key(x) == k then [x] else []
  {
    assert (xs + [x])[..|xs|] == xs;
  }

  /** Sorting is stable: members of one key keep the order they came in. */
  lemma {:induction false} SortIsStable<T(!new)>(xs: seq<T>, key: T -> int, k: int)
    ensures OfKey(SortBy(xs, key), key, k) == OfKey(xs, key, k)
  {
    if xs != [] {
      var rest, last := xs[..|xs| - 1], xs[|xs| - 1];
      SortIsStable(rest, key, k);
      SortBySorts(rest, key);
      InsertIsStable(last, SortBy(rest, key), key, k);
      hide Insert, SortedBy;
    }
  }

  lemma {:induction false} InsertIsStable<T(!new)>(x: T, xs: seq<T>, key: T -> int, k: int)
    requires SortedBy(xs, key)
    ensures OfKey(Insert(x, xs, key), key, k) == OfKey(xs, key, k) + if key(x) == k then [x] else []
  {
    if xs == [] || key(xs[|xs| - 1]) <= key(x) {
      OfKeySnoc(xs, x, key, k);
    } else {
      var rest, last := xs[..|xs| - 1], xs[|xs| - 1];
      InsertIsStable(x, rest, key, k);
      OfKeySnoc(Insert(x, rest, key), last, key, k);
      if key(x) == k {
        NoneAbove(rest, key, k, last);
      }
    }
  }

  /** The last member put back lies above the inserted one, so it is of another key. */
  lemma NoneAbove<T>(rest: seq<T>, key: T -> int, k: int, last: T)
    requires key(last) > k
    ensures OfKey(rest + [last], key, k) == OfKey(rest, key, k)
  {
    OfKeySnoc(rest, last, key, k);
  }

  /** Equal keys only for equal members. */
  ghost predicate KeyIdentifies<T(!new)>(xs: seq<T>, key: T -> int) {
    forall x, y :: x in xs && y in xs && key(x) == key(y) ==> x == y
  }

  /** There is only one way to be sorted by an identifying key. */
  lemma {:induction false} SortedIsUnique<T(!new)>(a: seq<T>, b: seq<T>, key: T -> int)
    requires SortedBy(a, key) && SortedBy(b, key) && multiset(a) == multiset(b) && KeyIdentifies(a, key)
    ensures a == b
  {
    hide SortedBy, KeyIdentifies;
    SameSize(a, b);
    if a != [] {
      LastsAgree(a, b, key);
      var last, restA, restB := a[|a| - 1], a[..|a| - 1], b[..|b| - 1];
      assert a == restA + [last] && b == restB + [last];
      RestsAgree(a, b, restA, restB, last);
      StillSorted(a, restA, key);
      StillSorted(b, restB, key);
      StillIdentified(a, restA, key);
      SortedIsUnique(restA, restB, key);
    }
  }

  lemma RestsAgree<T>(a: seq<T>, b: seq<T>, restA: seq<T>, restB: seq<T>, last: T)
    requires a == restA + [last] && b == restB + [last] && multiset(a) == multiset(b)
    ensures multiset(restA) == multiset(restB)
  {
    assert multiset(restA) == multiset(a) - multiset{last};
    assert multiset(restB) == multiset(b) - multiset{last};
  }

  lemma StillSorted<T(!new)>(a: seq<T>, rest: seq<T>, key: T -> int)
    requires SortedBy(a, key) && rest <= a
    ensures SortedBy(rest, key)
  {
  }

  lemma StillIdentified<T(!new)>(a: seq<T>, rest: seq<T>, key: T -> int)
    requires KeyIdentifies(a, key) && rest <= a
    ensures KeyIdentifies(rest, key)
  {
    assert forall x :: x in rest ==> x in a;
  }

  lemma SameSize<T>(a: seq<T>, b: seq<T>)
    requires multiset(a) == multiset(b)
    ensures |a| == |b|
  {
    assert |multiset(a)| == |a| && |multiset(b)| == |b|;
  }

  lemma LastsAgree<T(!new)>(a: seq<T>, b: seq<T>, key: T -> int)
    requires SortedBy(a, key) && SortedBy(b, key) && multiset(a) == multiset(b) && KeyIdentifies(a, key) && a != [] && b != []
    ensures a[|a| - 1] == b[|b| - 1]
  {
    var x, y := a[|a| - 1], b[|b| - 1];
    assert x in multiset(a) && y in multiset(b);
    assert x in b && y in a;
  }

  /** The order the members came in does not matter. */
  lemma SortIgnoresInputOrder<T(!new)>(a: seq<T>, b: seq<T>, key: T -> int)
    requires multiset(a) == multiset(b) && KeyIdentifies(a, key)
    ensures SortBy(a, key) == SortBy(b, key)
  {
    SortBySorts(a, key);
    SortBySorts(b, key);
    SortByMembers(a, key);
    SortedIsUnique(SortBy(a, key), SortBy(b, key), key);
  }
}

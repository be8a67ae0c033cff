/** The canonical JSON text of integers and lists of them, as `json.dumps` writes it without
    whitespace, and why it can be read back in one way only (src/kvcot/utils/hashing.py). Every
    encoder is given the text that follows. */
module CanonicalJson {

  predicate IsDigit(c: char) { '0' <= c <= '9' }

  function Digit(n: nat): char
    requires n < 10
  {
    ['0', '1', '2', '3', '4', '5', '6', '7', '8', '9'][n]
  }

  /** A natural number in decimal. */
  function Digits(n: nat): (text: string)
    ensures text != [] && forall i :: 0 <= i < |text| ==> IsDigit(text[i])
  {
    if n < 10 then [Digit(n)] else Digits(n / 10) + [Digit(n % 10)]
  }

  function Number(x: int): string {
    if x < 0 then "-" + Digits(-x) else Digits(x)
  }

  /** The rest of a list after its opening bracket, and what follows the list. */
  function Numbers(xs: seq<int>, rest: string): string
    decreases |xs|, 1
  {
    if xs == [] then "]" + rest
    else Number(xs[0]) + AfterFirst(xs, rest)
  }

  function AfterFirst(xs: seq<int>, rest: string): (text: string)
    requires xs != []
    ensures Delimited(text)
    decreases |xs|, 0
  {
    if |xs| == 1 then "]" + rest else "," + Numbers(xs[1..], rest)
  }

  /** The number a decimal text stands for. */
  function Value(text: string): nat
    requires forall i :: 0 <= i < |text| ==> IsDigit(text[i])
  {
    if text == [] then 0 else
      assert IsDigit(text[|text| - 1]);
      10 * Value(text[..|text| - 1]) + (text[|text| - 1] as int - '0' as int)
  }

  /** The digits are the decimal ones: they stand for the number, without a leading zero. */
  lemma {:induction false} DigitsAreDecimal(n: nat)
    ensures Value(Digits(n)) == n
    ensures Digits(n)[0] == '0' <==> n == 0
  {
    if n < 10 {
      assert Digits(n)[..0] == [];
    } else {
      DigitsAreDecimal(n / 10);
      assert Digits(n)[..|Digits(n)| - 1] == Digits(n / 10);
    }
  }

  /** How a list is written: members separated by commas only, closed by its bracket. */
  lemma NumbersAre(x: int, xs: seq<int>, rest: string)
    ensures Numbers([], rest) == "]" + rest
    ensures Numbers([x] + xs, rest) == Number(x) + (if xs == [] then "]" + rest else "," + Numbers(xs, rest))
    ensures Number(x) == (if x < 0 then "-" + Digits(-x) else Digits(x))
  {
    assert ([x] + xs)[1..] == xs;
  }

  /** The text does not begin in the middle of a number. */
  predicate Delimited(text: string) { text == [] || !IsDigit(text[0]) }

  // ---------------------------------------------------------------- one way to read it back

  lemma SameHeadSameRest(head: string, r: string, s: string)
    requires head + r == head + s
    ensures r == s
  {
    assert (head + r)[|head|..] == r && (head + s)[|head|..] == s;
  }

  lemma SameDigit(a: nat, b: nat)
    requires a < 10 && b < 10 && Digit(a) == Digit(b)
    ensures a == b
  {
  }

  lemma {:induction false} DigitsInjective(a: nat, b: nat)
    requires Digits(a) == Digits(b)
    ensures a == b
  {
    var x, y := Digits(a), Digits(b);
    assert x[|x| - 1] == y[|y| - 1];
    if a >= 10 && b >= 10 {
      assert x[..|x| - 1] == Digits(a / 10) && y[..|y| - 1] == Digits(b / 10);
      DigitsInjective(a / 10, b / 10);
      SameDigit(a % 10, b % 10);
    } else if a < 10 && b < 10 {
      SameDigit(a, b);
    }
  }

  /** A number ends where its digits do. */
  lemma DigitsRead(a: nat, r: string, b: nat, s: string)
    requires Digits(a) + r == Digits(b) + s && Delimited(r) && Delimited(s)
    ensures a == b && r == s
  {
    NotShorter(Digits(a), r, Digits(b), s);
    NotShorter(Digits(b), s, Digits(a), r);
    assert (Digits(a) + r)[..|Digits(a)|] == Digits(a) && (Digits(b) + s)[..|Digits(b)|] == Digits(b);
    DigitsInjective(a, b);
    SameHeadSameRest(Digits(a), r, s);
  }

  function CharAt(text: string, k: int): char { if 0 <= k < |text| then text[k] else ' ' }

  lemma NotShorter(x: string, r: string, y: string, s: string)
    requires x + r == y + s && Delimited(r) && forall i :: 0 <= i < |y| ==> IsDigit(y[i])
    ensures |y| <= |x|
  {
    assert CharAt(x + r, |x|) == CharAt(r, 0);
    assert |x| < |y| ==> CharAt(y + s, |x|) == CharAt(y, |x|) && IsDigit(CharAt(y, |x|));
  }

  lemma NumberRead(a: int, r: string, b: int, s: string)
    requires Number(a) + r == Number(b) + s && Delimited(r) && Delimited(s)
    ensures a == b && r == s
  {
    NumberSign(a);
    NumberSign(b);
    assert (Number(a) + r)[0] == Number(a)[0] && (Number(b) + s)[0] == Number(b)[0];
    hide Digits;
    if a < 0 {
      NegativeRead(a, r, b, s);
    } else {
      DigitsRead(a, r, b, s);
    }
  }

  lemma NegativeRead(a: int, r: string, b: int, s: string)
    requires a < 0 && b < 0 && Number(a) + r == Number(b) + s && Delimited(r) && Delimited(s)
    ensures a == b && r == s
  {
    hide Digits;
    SkipSign(Digits(-a), r);
    SkipSign(Digits(-b), s);
    DigitsRead(-a, r, -b, s);
  }

  lemma NumberSign(a: int)
    ensures Number(a) != [] && (Number(a)[0] == '-' <==> a < 0)
  {
    if a >= 0 {
      assert IsDigit(Digits(a)[0]);
    }
  }

  lemma SkipSign(x: string, r: string)
    ensures ("-" + x + r)[1..] == x + r
  {
  }

  /** A list of numbers ends at its bracket. */
  lemma {:induction false} NumbersRead(xs: seq<int>, r: string, ys: seq<int>, s: string)
    requires Numbers(xs, r) == Numbers(ys, s)
    ensures xs == ys && r == s
    decreases |xs|, 1
  {
    if xs == [] || ys == [] {
      EmptyOrNot(xs, r);
      EmptyOrNot(ys, s);
      SameHeadSameRest("]", r, s);
    } else {
      hide Number, AfterFirst;
      NumberRead(xs[0], AfterFirst(xs, r), ys[0], AfterFirst(ys, s));
      AfterFirstRead(xs, r, ys, s);
      assert xs == [xs[0]] + xs[1..] && ys == [ys[0]] + ys[1..];
    }
  }

  lemma EmptyOrNot(xs: seq<int>, r: string)
    ensures Numbers(xs, r) != [] && (Numbers(xs, r)[0] == ']' <==> xs == [])
  {
    if xs != [] {
      NumberSign(xs[0]);
      assert Numbers(xs, r)[0] == Number(xs[0])[0];
    }
  }

  lemma {:induction false} AfterFirstRead(xs: seq<int>, r: string, ys: seq<int>, s: string)
    requires xs != [] && ys != [] && AfterFirst(xs, r) == AfterFirst(ys, s)
    ensures xs[1..] == ys[1..] && r == s
    decreases |xs|, 0
  {
    hide Numbers;
    assert AfterFirst(xs, r)[0] == AfterFirst(ys, s)[0];
    if |xs| == 1 {
      SameHeadSameRest("]", r, s);
    } else {
      SameHeadSameRest(",", Numbers(xs[1..], r), Numbers(ys[1..], s));
      NumbersRead(xs[1..], r, ys[1..], s);
    }
  }
}

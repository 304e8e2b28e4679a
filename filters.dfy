/** The two filter stages (`filterNegative`, `filterNotDivisibleBy3`): each
    forwards the elements its predicate accepts, in arrival order, and drops
    the others without any other effect. */
module Filters {
  import opened Sequences

  /** Go's `/` on integers: the quotient truncated toward zero (Dafny's `/`
      is Euclidean instead). */
  function GoQuo(a: int, m: int): int
    requires m > 0
  {
    if a >= 0 then a / m else -((-a) / m)
  }

  /** Go's `%`: the remainder of the truncated quotient, so it carries the
      sign of the dividend (Dafny's `%` is Euclidean instead). */
  function GoRem(a: int, m: int): (r: int)
    requires m > 0
    ensures a == GoQuo(a, m) * m + r
    ensures -m < r < m
    ensures a >= 0 ==> r >= 0
    ensures a < 0 ==> r <= 0
  {
    if a >= 0 then a % m else -((-a) % m)
  }

  /** Predicate of `filterNegative`. */
  predicate KeepNonNegative(x: int) {
    x >= 0
  }

  /** Predicate of `filterNotDivisibleBy3`, written with Go's remainder: it
      accepts exactly the non-zero multiples of three. */
  function KeepMultipleOf3(x: int): (b: bool)
    ensures b <==> x != 0 && x % 3 == 0
  {
    GoRemZero(x);
    x != 0 && GoRem(x, 3) == 0
  }

  /** The combined rule: positive multiples of three. */
  predicate Qualifies(x: int) {
    x > 0 && x % 3 == 0
  }

  /** An order-preserving stage over the whole stream it receives. */
  function Filter<T>(keep: T -> bool, s: seq<T>): (r: seq<T>)
    ensures |r| <= |s|
    ensures forall i :: 0 <= i < |r| ==> keep(r[i])
  {
    if s == [] then []
    else if keep(s[0]) then [s[0]] + Filter(keep, s[1..])
    else Filter(keep, s[1..])
  }

  /** `filterNegative`: the non-negative elements, in arrival order. */
  function FilterNegative(s: seq<int>): (r: seq<int>)
    ensures forall x :: x in r <==> x in s && x >= 0
    ensures IsSubsequence(r, s)
  {
    FilterMembers(KeepNonNegative, s);
    FilterOrder(KeepNonNegative, s);
    Filter(KeepNonNegative, s)
  }

  /** `filterNotDivisibleBy3`: the non-zero multiples of three, in arrival
      order. */
  function FilterNotDivisibleBy3(s: seq<int>): (r: seq<int>)
    ensures forall x :: x in r <==> x in s && x != 0 && x % 3 == 0
    ensures IsSubsequence(r, s)
  {
    FilterMembers(KeepMultipleOf3, s);
    FilterOrder(KeepMultipleOf3, s);
    Filter(KeepMultipleOf3, s)
  }

  /** Truncated and Euclidean remainders by three agree on divisibility. */
  lemma GoRemZero(a: int)
    ensures GoRem(a, 3) == 0 <==> a % 3 == 0
  {
  }

  /** The filter keeps exactly the accepted elements: with their full
      multiplicity, and none of the others. */
  lemma {:induction false} FilterCounts<T>(keep: T -> bool, s: seq<T>)
    ensures forall x :: multiset(Filter(keep, s))[x] == if keep(x) then multiset(s)[x] else 0
  {
    if s != [] {
      FilterCounts(keep, s[1..]);
      assert s == [s[0]] + s[1..];
      assert multiset(s) == multiset{s[0]} + multiset(s[1..]);
    }
  }

  lemma FilterMembers<T>(keep: T -> bool, s: seq<T>)
    ensures forall x :: x in Filter(keep, s) <==> x in s && keep(x)
  {
    FilterCounts(keep, s);
    forall x ensures x in Filter(keep, s) <==> x in s && keep(x) {
      assert x in Filter(keep, s) <==> multiset(Filter(keep, s))[x] > 0;
      assert x in s <==> multiset(s)[x] > 0;
    }
  }

  /** The filter's output is a subsequence of its input: relative order kept. */
  lemma {:induction false} FilterOrder<T>(keep: T -> bool, s: seq<T>)
    ensures IsSubsequence(Filter(keep, s), s)
  {
    if s != [] {
      FilterOrder(keep, s[1..]);
      var r := Filter(keep, s[1..]);
      if keep(s[0]) {
        assert ([s[0]] + r)[1..] == r;
      } else if r != [] {
        assert IsSubsequence(r, s[1..]);
      }
    }
  }

  /** Filtering distributes over concatenation: a stream cut short at any
      point yields a prefix of the full output. */
  lemma {:induction false} FilterAppend<T>(keep: T -> bool, a: seq<T>, b: seq<T>)
    ensures Filter(keep, a + b) == Filter(keep, a) + Filter(keep, b)
  {
    if a == [] {
      assert a + b == b;
    } else {
      assert (a + b)[0] == a[0];
      assert (a + b)[1..] == a[1..] + b;
      FilterAppend(keep, a[1..], b);
    }
  }

  /** Two filters in a row are one filter by the conjunction. */
  lemma {:induction false} FilterCompose<T>(p: T -> bool, q: T -> bool, both: T -> bool, s: seq<T>)
    requires forall x :: both(x) == (p(x) && q(x))
    ensures Filter(q, Filter(p, s)) == Filter(both, s)
  {
    if s != [] {
      FilterCompose(p, q, both, s[1..]);
      if p(s[0]) {
        assert ([s[0]] + Filter(p, s[1..]))[1..] == Filter(p, s[1..]);
      }
    }
  }

  /** The two stages together forward exactly the positive multiples of
      three, in order. */
  lemma FiltersCombined(s: seq<int>)
    ensures FilterNotDivisibleBy3(FilterNegative(s)) == Filter(Qualifies, s)
    ensures forall x :: x in FilterNotDivisibleBy3(FilterNegative(s)) <==> x in s && x >= 0 && x != 0 && x % 3 == 0
  {
    forall x ensures Qualifies(x) == (KeepNonNegative(x) && KeepMultipleOf3(x)) {
      GoRemZero(x);
    }
    FilterCompose(KeepNonNegative, KeepMultipleOf3, Qualifies, s);
    FilterMembers(Qualifies, s);
  }
}

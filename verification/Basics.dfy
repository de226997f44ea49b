/** Sums over the threads of a pool. */
module Sums {

  function Sum<T>(xs: seq<T>, f: T -> nat): nat
  {
    if xs == [] then 0 else f(xs[0]) + Sum(xs[1..], f)
  }

  lemma {:induction false} SumUpdate<T>(xs: seq<T>, i: nat, x: T, f: T -> nat)
    requires i < |xs|
    ensures Sum(xs[i := x], f) + f(xs[i]) == Sum(xs, f) + f(x)
  {
    if i == 0 {
      assert xs[i := x][1..] == xs[1..];
    } else {
      assert xs[i := x][1..] == xs[1..][i - 1 := x];
      SumUpdate(xs[1..], i - 1, x, f);
    }
  }

  lemma {:induction false} SumPositive<T>(xs: seq<T>, f: T -> nat) returns (i: nat)
    requires Sum(xs, f) > 0
    ensures i < |xs| && f(xs[i]) > 0
  {
    if f(xs[0]) > 0 {
      i := 0;
    } else {
      var j := SumPositive(xs[1..], f);
      i := j + 1;
    }
  }

  lemma {:induction false} SumBound<T>(xs: seq<T>, f: T -> nat, k: nat)
    requires forall x :: x in xs ==> f(x) <= k
    ensures Sum(xs, f) <= k * |xs|
  {
    if xs != [] {
      SumBound(xs[1..], f, k);
    }
  }

  lemma {:induction false} SumZero<T>(xs: seq<T>, f: T -> nat)
    requires forall x :: x in xs ==> f(x) == 0
    ensures Sum(xs, f) == 0
  {
    if xs != [] {
      SumZero(xs[1..], f);
    }
  }
}

/** How often a value occurs in a sequence, taken apart from either end. */
module Counting {

  function One<T(==)>(x: T, y: T): nat { if x == y then 1 else 0 }

  lemma ConsCount<T>(first: T, rest: seq<T>, x: T)
    ensures multiset([first] + rest)[x] == One(first, x) + multiset(rest)[x]
  {
  }

  lemma HeadCount<T>(s: seq<T>, x: T)
    requires |s| > 0
    ensures multiset(s)[x] == One(s[0], x) + multiset(s[1..])[x]
  {
    assert s == [s[0]] + s[1..];
  }

  lemma EndsCount<T>(s: seq<T>, x: T)
    requires |s| > 1
    ensures multiset(s)[x] == One(s[0], x) + multiset(s[1..|s| - 1])[x] + One(s[|s| - 1], x)
  {
    assert s == [s[0]] + (s[1..|s| - 1] + [s[|s| - 1]]);
  }
}

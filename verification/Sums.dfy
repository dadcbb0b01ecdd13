/** Weighted sums over sequences, for counters that concurrent steps update one place at a time. */
module Sums {

  function Sum<T>(f: T -> int, s: seq<T>): int {
    if s == [] then 0 else Sum(f, s[..|s| - 1]) + f(s[|s| - 1])
  }

  /** Changing one place changes the sum by the difference at that place. */
  lemma {:induction false} SumUpdate<T>(f: T -> int, s: seq<T>, i: nat, x: T)
    requires i < |s|
    ensures Sum(f, s[i := x]) == Sum(f, s) - f(s[i]) + f(x)
  {
    var front := s[..|s| - 1];
    if i == |s| - 1 {
      assert s[i := x][..i] == front;
    } else {
      SumUpdate(f, front, i, x);
      assert s[i := x][..|s| - 1] == front[i := x];
    }
  }

  lemma SumPrefix<T>(f: T -> int, s: seq<T>, i: nat)
    requires i < |s|
    ensures Sum(f, s[..i + 1]) == Sum(f, s[..i]) + f(s[i])
  {
    assert s[..i + 1][..i] == s[..i];
  }

  lemma {:induction false} SumBounds<T>(f: T -> int, s: seq<T>)
    requires forall x <- s :: 0 <= f(x) <= 1
    ensures 0 <= Sum(f, s) <= |s|
  {
    if s != [] {
      assert forall x <- s[..|s| - 1] :: x in s;
      assert s[|s| - 1] in s;
      SumBounds(f, s[..|s| - 1]);
    }
  }

  lemma {:induction false} SumMatch<T, U>(f: T -> int, s: seq<T>, g: U -> int, t: seq<U>)
    requires |s| == |t| && forall i | 0 <= i < |s| :: f(s[i]) == g(t[i])
    ensures Sum(f, s) == Sum(g, t)
  {
    if s != [] {
      SumMatch(f, s[..|s| - 1], g, t[..|t| - 1]);
    }
  }

  /** Two weights that make one at every place sum to the length. */
  lemma {:induction false} SumSplit<T>(f: T -> int, g: T -> int, s: seq<T>)
    requires forall x <- s :: f(x) + g(x) == 1
    ensures Sum(f, s) + Sum(g, s) == |s|
  {
    if s != [] {
      assert forall x <- s[..|s| - 1] :: x in s;
      assert s[|s| - 1] in s;
      SumSplit(f, g, s[..|s| - 1]);
    }
  }
}

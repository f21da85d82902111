/** Finite sums over sets, used by termination measures and balances. */
module Sums {
  ghost function Sum<T(!new)>(f: T -> int, s: set<T>): int
    decreases |s|
  {
    if s == {} then 0 else var x :| x in s; f(x) + Sum(f, s - {x})
  }

  // The order of summation is immaterial.
  lemma {:induction false} SumRemove<T(!new)>(f: T -> int, s: set<T>, x: T)
    requires x in s
    ensures Sum(f, s) == f(x) + Sum(f, s - {x})
    decreases |s|
  {
    var y :| y in s && Sum(f, s) == f(y) + Sum(f, s - {y});
    if y != x {
      SumRemove(f, s - {y}, x);
      SumRemove(f, s - {x}, y);
      assert s - {y} - {x} == s - {x} - {y};
    }
  }

  lemma {:induction false} SumMono<T(!new)>(f: T -> int, g: T -> int, s: set<T>)
    requires forall x :: x in s ==> f(x) <= g(x)
    ensures Sum(f, s) <= Sum(g, s)
    decreases |s|
  {
    if s != {} {
      var x :| x in s;
      SumRemove(f, s, x);
      SumRemove(g, s, x);
      SumMono(f, g, s - {x});
    }
  }

  lemma SumEq<T(!new)>(f: T -> int, g: T -> int, s: set<T>)
    requires forall x :: x in s ==> f(x) == g(x)
    ensures Sum(f, s) == Sum(g, s)
  {
    SumMono(f, g, s);
    SumMono(g, f, s);
  }

  lemma SumStrict<T(!new)>(f: T -> int, g: T -> int, s: set<T>, x: T)
    requires x in s && f(x) < g(x) && forall y :: y in s ==> f(y) <= g(y)
    ensures Sum(f, s) < Sum(g, s)
  {
    SumRemove(f, s, x);
    SumRemove(g, s, x);
    SumMono(f, g, s - {x});
  }

  lemma {:induction false} SumBound<T(!new)>(f: T -> int, s: set<T>, b: int)
    requires forall x :: x in s ==> 0 <= f(x) <= b
    ensures 0 <= Sum(f, s) <= |s| * b
    decreases |s|
  {
    if s != {} {
      var x :| x in s;
      SumRemove(f, s, x);
      SumBound(f, s - {x}, b);
      OneMore(|s - {x}|, b);
    }
  }

  lemma OneMore(n: int, b: int)
    ensures (n + 1) * b == n * b + b
  {
  }
}

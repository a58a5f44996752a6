/** Sums over sequences, and how one update moves them. */
module Counting {

  function SumBy<T>(s: seq<T>, f: T -> nat): nat
  {
    if |s| == 0 then 0 else SumBy(s[..|s| - 1], f) + f(s[|s| - 1])
  }

  lemma {:induction false} SumByUpdate<T>(s: seq<T>, i: nat, v: T, f: T -> nat)
    requires i < |s|
    ensures SumBy(s[i := v], f) + f(s[i]) == SumBy(s, f) + f(v)
    decreases |s|
  {
    var n := |s| - 1;
    if i < n {
      SumByUpdate(s[..n], i, v, f);
      assert s[i := v][..n] == s[..n][i := v];
    } else {
      assert s[i := v][..n] == s[..n];
    }
  }

  lemma {:induction false} SumByAtLeast<T>(s: seq<T>, i: nat, f: T -> nat)
    requires i < |s|
    ensures SumBy(s, f) >= f(s[i])
    decreases |s|
  {
    var n := |s| - 1;
    if i < n {
      SumByAtLeast(s[..n], i, f);
    }
  }

  lemma {:induction false} SumByZero<T>(s: seq<T>, f: T -> nat)
    requires forall i :: 0 <= i < |s| ==> f(s[i]) == 0
    ensures SumBy(s, f) == 0
    decreases |s|
  {
    if |s| > 0 {
      SumByZero(s[..|s| - 1], f);
    }
  }

  lemma {:induction false} SumByAtMost<T>(s: seq<T>, f: T -> nat, g: T -> nat)
    requires forall i :: 0 <= i < |s| ==> f(s[i]) <= g(s[i])
    ensures SumBy(s, f) <= SumBy(s, g)
    decreases |s|
  {
    if |s| > 0 {
      SumByAtMost(s[..|s| - 1], f, g);
    }
  }

  /** A positive sum has a positive summand. */
  lemma {:induction false} SumByWitness<T>(s: seq<T>, f: T -> nat) returns (i: nat)
    requires SumBy(s, f) > 0
    ensures i < |s| && f(s[i]) > 0
    decreases |s|
  {
    var n := |s| - 1;
    if f(s[n]) > 0 {
      i := n;
    } else {
      i := SumByWitness(s[..n], f);
    }
  }
}

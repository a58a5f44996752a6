/** Sums of squares of real sequences: the quantity the transform conserves. */
module Energy {

  function Times(g: real, e: real): real { g * e }

  function Sq(x: real): real { Times(x, x) }

  function SumSq(s: seq<real>): real
  {
    if |s| == 0 then 0.0 else SumSq(s[..|s| - 1]) + Sq(s[|s| - 1])
  }

  lemma {:induction false} SumSqConcat(a: seq<real>, b: seq<real>)
    ensures SumSq(a + b) == SumSq(a) + SumSq(b)
  {
    hide Sq;
    if b == [] {
      assert a + b == a;
    } else {
      var n := |b| - 1;
      assert (a + b)[..|a + b| - 1] == a + b[..n];
      SumSqConcat(a, b[..n]);
    }
  }

  lemma SumSqConcat3(a: seq<real>, b: seq<real>, c: seq<real>)
    ensures SumSq(a + b + c) == SumSq(a) + (SumSq(b) + SumSq(c))
  {
    hide SumSq;
    SumSqConcat(a + b, c);
    SumSqConcat(a, b);
  }

  lemma SumSqSingleton(x: real)
    ensures SumSq([x]) == Sq(x)
  {
    assert [x][..0] == [];
  }

  lemma SignsOfTimes(g: real, e: real)
    ensures g > 0.0 && e > 0.0 ==> Times(g, e) > 0.0
    ensures g < 0.0 && e < 0.0 ==> Times(g, e) > 0.0
    ensures g == 0.0 ==> Times(g, e) == 0.0
  {
  }

  lemma SquareDefinite(x: real)
    ensures Sq(x) >= 0.0
    ensures x != 0.0 ==> Sq(x) > 0.0
  {
    hide Times;
    SignsOfTimes(x, x);
  }

  /** Energies that scale by g keep doing so when they are added up. */
  lemma ScaledSum(g: real, e: real, a: real, f: real, b: real)
    requires e == Times(g, a) && f == Times(g, b)
    ensures e + f == Times(g, a + b)
  {
  }

  lemma SumSqLast(s: seq<real>, k: nat)
    requires |s| == k + 1
    ensures SumSq(s) == SumSq(s[..k]) + Sq(s[k])
  {
  }

  lemma EmptyEnergy(g: real, s: seq<real>)
    requires |s| == 0
    ensures SumSq(s) == 0.0 && Times(g, 0.0) == 0.0
  {
  }

  lemma TimesTimes(g: real, h: real, e: real)
    ensures Times(g, Times(h, e)) == Times(g * h, e)
  {
  }

  /** Only the zero signal has no energy. */
  lemma {:induction false} SumSqDefinite(s: seq<real>)
    ensures SumSq(s) >= 0.0
    ensures SumSq(s) == 0.0 ==> forall i :: 0 <= i < |s| ==> s[i] == 0.0
  {
    hide Sq;
    if s == [] {
    } else {
      var n := |s| - 1;
      SumSqDefinite(s[..n]);
      SquareDefinite(s[n]);
      if SumSq(s) == 0.0 {
        forall i | 0 <= i < |s| ensures s[i] == 0.0 {
          if i < n { assert s[i] == s[..n][i]; }
        }
      }
    }
  }

  /** Pointwise difference of two signals of equal length. */
  function Minus(x: seq<real>, y: seq<real>): (r: seq<real>)
    requires |x| == |y|
    ensures |r| == |x|
  {
    seq(|x|, i requires 0 <= i < |x| => x[i] - y[i])
  }

  lemma MinusConcat(a: seq<real>, p: seq<real>, b: seq<real>, q: seq<real>)
    requires |a| == |p| && |b| == |q|
    ensures Minus(a + b, p + q) == Minus(a, p) + Minus(b, q)
  {
  }

  lemma MinusSplit(x: seq<real>, y: seq<real>, m: nat)
    requires |x| == |y| && m <= |x|
    ensures Minus(x, y)[..m] == Minus(x[..m], y[..m])
    ensures Minus(x, y)[m..] == Minus(x[m..], y[m..])
  {
  }

  lemma SumSqMinusZero(x: seq<real>, y: seq<real>)
    requires |x| == |y| && SumSq(Minus(x, y)) == 0.0
    ensures x == y
  {
    SumSqDefinite(Minus(x, y));
    forall i | 0 <= i < |x| ensures x[i] == y[i] {
      assert Minus(x, y)[i] == 0.0;
    }
  }

  lemma SplitEnds(s: seq<real>, i: nat, j: nat)
    requires i + 2 <= j <= |s|
    ensures s[i..j] == [s[i]] + s[i + 1..j - 1] + [s[j - 1]]
  {
  }
}

/**
  The two butterfly networks of the inverse transform, as functions on signals.
  A pass is described block by block: a block of 2c samples is read and a block
  of 2c samples is written. A pass over n blocks is defined by its last block.
 */
module Networks {
  import opened Energy

  /** The length of n blocks of width w. */
  function Span(n: nat, w: nat): nat
  {
    if n == 0 then 0 else Span(n - 1, w) + w
  }

  lemma {:induction false} SpanIsProduct(n: nat, w: nat)
    ensures Span(n, w) == n * w
  {
    if n > 0 {
      SpanIsProduct(n - 1, w);
      assert n * w == (n - 1) * w + w;
    }
  }

  lemma {:induction false} SpanDouble(n: nat, w: nat)
    ensures Span(n, 2 * w) == 2 * Span(n, w)
  {
    if n > 0 {
      SpanDouble(n - 1, w);
    }
  }

  // ---------- first network: sums and differences of neighbours ----------

  function Sums(b: seq<real>): (r: seq<real>)
    requires |b| % 2 == 0
    ensures |r| == |b| / 2
  {
    if |b| == 0 then [] else Sums(b[..|b| - 2]) + [b[|b| - 2] + b[|b| - 1]]
  }

  function Diffs(b: seq<real>): (r: seq<real>)
    requires |b| % 2 == 0
    ensures |r| == |b| / 2
  {
    if |b| == 0 then [] else Diffs(b[..|b| - 2]) + [b[|b| - 2] - b[|b| - 1]]
  }

  function ButterflyBlock(b: seq<real>): (r: seq<real>)
    requires |b| % 2 == 0
    ensures |r| == |b|
  {
    Sums(b) + Diffs(b)
  }

  function ButterflyPass(s: seq<real>, c: nat, n: nat): (r: seq<real>)
    requires |s| == Span(n, 2 * c)
    ensures |r| == |s|
    decreases n
  {
    if n == 0 then s else
      var m := Span(n - 1, 2 * c);
      ButterflyPass(s[..m], c, n - 1) + ButterflyBlock(s[m..])
  }

  // ---------- second network: plane rotations, second half mirrored ----------

  function LowOf(a: real, b: real, s: real, c: real): real { a * s - b * c }

  function HighOf(a: real, b: real, s: real, c: real): real { a * c + b * s }

  function RotateLow(x: seq<real>, y: seq<real>, sn: seq<real>, cs: seq<real>): (r: seq<real>)
    requires |x| == |y| == |sn| == |cs|
    ensures |r| == |x|
  {
    if |x| == 0 then [] else
      var k := |x| - 1;
      RotateLow(x[..k], y[..k], sn[..k], cs[..k]) + [LowOf(x[k], y[k], sn[k], cs[k])]
  }

  function RotateHigh(x: seq<real>, y: seq<real>, sn: seq<real>, cs: seq<real>): (r: seq<real>)
    requires |x| == |y| == |sn| == |cs|
    ensures |r| == |x|
  {
    if |x| == 0 then [] else
      var k := |x| - 1;
      [HighOf(x[k], y[k], sn[k], cs[k])] + RotateHigh(x[..k], y[..k], sn[..k], cs[..k])
  }

  function RotationBlock(b: seq<real>, c: nat, sn: seq<real>, cs: seq<real>): (r: seq<real>)
    requires |b| == 2 * c && |sn| == |cs| == c
    ensures |r| == |b|
  {
    RotateLow(b[..c], b[c..], sn, cs) + RotateHigh(b[..c], b[c..], sn, cs)
  }

  function RotationPass(s: seq<real>, c: nat, n: nat, sn: seq<real>, cs: seq<real>): (r: seq<real>)
    requires |s| == Span(n, 2 * c) && |sn| == |cs| == Span(n, c)
    ensures |r| == |s|
    decreases n
  {
    if n == 0 then s else
      var m := Span(n - 1, 2 * c);
      var t := Span(n - 1, c);
      RotationPass(s[..m], c, n - 1, sn[..t], cs[..t]) + RotationBlock(s[m..], c, sn[t..], cs[t..])
  }

  // ---------- energy of one pass ----------

  lemma SumDiffSquares(a: real, b: real)
    ensures Sq(a + b) + Sq(a - b) == Times(2.0, Sq(a) + Sq(b))
  {
  }

  lemma {:induction false} SumsDiffsEnergy(b: seq<real>)
    requires |b| % 2 == 0
    ensures SumSq(Sums(b)) + SumSq(Diffs(b)) == Times(2.0, SumSq(b))
  {
    hide Sq, Times, SumSq;
    if |b| == 0 {
      EmptyEnergy(2.0, b);
      EmptyEnergy(2.0, Sums(b));
      EmptyEnergy(2.0, Diffs(b));
    } else {
      var k := |b| - 2;
      var p, q := b[k], b[k + 1];
      SumsDiffsEnergy(b[..k]);
      SumDiffSquares(p, q);
      SumSqLast(b, k + 1);
      SumSqLast(b[..k + 1], k);
      assert b[..k + 1][..k] == b[..k];
      SumSqConcat(Sums(b[..k]), [p + q]);
      SumSqSingleton(p + q);
      SumSqConcat(Diffs(b[..k]), [p - q]);
      SumSqSingleton(p - q);
      ScaledSum(2.0, SumSq(Sums(b[..k])) + SumSq(Diffs(b[..k])), SumSq(b[..k]), Sq(p + q) + Sq(p - q), Sq(p) + Sq(q));
    }
  }

  lemma ButterflyBlockEnergy(b: seq<real>)
    requires |b| % 2 == 0
    ensures SumSq(ButterflyBlock(b)) == Times(2.0, SumSq(b))
  {
    hide Times, SumSq;
    SumsDiffsEnergy(b);
    SumSqConcat(Sums(b), Diffs(b));
  }

  /** Every sum/difference pass doubles the energy, for any block width and block count. */
  lemma {:induction false} ButterflyPassEnergy(s: seq<real>, c: nat, n: nat)
    requires |s| == Span(n, 2 * c)
    ensures SumSq(ButterflyPass(s, c, n)) == Times(2.0, SumSq(s))
    decreases n
  {
    hide Times, ButterflyBlock, SumSq;
    if n == 0 {
      EmptyEnergy(2.0, s);
    } else {
      var m := Span(n - 1, 2 * c);
      var head, tail := ButterflyPass(s[..m], c, n - 1), ButterflyBlock(s[m..]);
      ButterflyPassEnergy(s[..m], c, n - 1);
      ButterflyBlockEnergy(s[m..]);
      ScaledSum(2.0, SumSq(head), SumSq(s[..m]), SumSq(tail), SumSq(s[m..]));
      SumSqConcat(head, tail);
      SumSqConcat(s[..m], s[m..]);
      assert s[..m] + s[m..] == s;
    }
  }

  /** The ideal table identity: s^2 + c^2 = g at every table slot. */
  ghost predicate Unitary(sn: seq<real>, cs: seq<real>, g: real)
  {
    |sn| == |cs| && forall i :: 0 <= i < |sn| ==> Sq(sn[i]) + Sq(cs[i]) == g
  }

  lemma RotationSquares(a: real, b: real, s: real, c: real, g: real)
    requires Sq(s) + Sq(c) == g
    ensures Sq(LowOf(a, b, s, c)) + Sq(HighOf(a, b, s, c)) == Times(g, Sq(a) + Sq(b))
  {
    calc {
      Sq(LowOf(a, b, s, c)) + Sq(HighOf(a, b, s, c));
      (s * s + c * c) * (a * a) + (s * s + c * c) * (b * b);
      g * (a * a) + g * (b * b);
      g * (a * a + b * b);
    }
  }

  lemma {:induction false} RotateEnergy(x: seq<real>, y: seq<real>, sn: seq<real>, cs: seq<real>, g: real)
    requires |x| == |y| == |sn| == |cs| && Unitary(sn, cs, g)
    ensures SumSq(RotateLow(x, y, sn, cs)) + SumSq(RotateHigh(x, y, sn, cs)) == Times(g, SumSq(x) + SumSq(y))
    decreases |x|
  {
    hide Sq, Times, LowOf, HighOf, SumSq;
    if |x| == 0 {
      EmptyEnergy(g, x);
      EmptyEnergy(g, RotateLow(x, y, sn, cs));
      EmptyEnergy(g, RotateHigh(x, y, sn, cs));
      EmptyEnergy(g, y);
    } else {
      var k := |x| - 1;
      RotateEnergy(x[..k], y[..k], sn[..k], cs[..k], g);
      RotationSquares(x[k], y[k], sn[k], cs[k], g);
      var low, high := RotateLow(x[..k], y[..k], sn[..k], cs[..k]), RotateHigh(x[..k], y[..k], sn[..k], cs[..k]);
      var u, v := LowOf(x[k], y[k], sn[k], cs[k]), HighOf(x[k], y[k], sn[k], cs[k]);
      ScaledSum(g, SumSq(low) + SumSq(high), SumSq(x[..k]) + SumSq(y[..k]), Sq(u) + Sq(v), Sq(x[k]) + Sq(y[k]));
      SumSqConcat(low, [u]);
      SumSqSingleton(u);
      SumSqConcat([v], high);
      SumSqSingleton(v);
      SumSqLast(x, k);
      SumSqLast(y, k);
    }
  }

  lemma RotationBlockEnergy(b: seq<real>, c: nat, sn: seq<real>, cs: seq<real>, g: real)
    requires |b| == 2 * c && |sn| == |cs| == c && Unitary(sn, cs, g)
    ensures SumSq(RotationBlock(b, c, sn, cs)) == Times(g, SumSq(b))
  {
    hide Times, SumSq;
    RotateEnergy(b[..c], b[c..], sn, cs, g);
    SumSqConcat(RotateLow(b[..c], b[c..], sn, cs), RotateHigh(b[..c], b[c..], sn, cs));
    SumSqConcat(b[..c], b[c..]);
    assert b[..c] + b[c..] == b;
  }

  /** Every rotation pass scales the energy by the table constant g. */
  lemma {:induction false} RotationPassEnergy(s: seq<real>, c: nat, n: nat, sn: seq<real>, cs: seq<real>, g: real)
    requires |s| == Span(n, 2 * c) && |sn| == |cs| == Span(n, c) && Unitary(sn, cs, g)
    ensures SumSq(RotationPass(s, c, n, sn, cs)) == Times(g, SumSq(s))
    decreases n
  {
    hide Times, RotationBlock, SumSq;
    if n == 0 {
      EmptyEnergy(g, s);
    } else {
      var m, t := Span(n - 1, 2 * c), Span(n - 1, c);
      var head, tail := RotationPass(s[..m], c, n - 1, sn[..t], cs[..t]), RotationBlock(s[m..], c, sn[t..], cs[t..]);
      RotationPassEnergy(s[..m], c, n - 1, sn[..t], cs[..t], g);
      RotationBlockEnergy(s[m..], c, sn[t..], cs[t..], g);
      ScaledSum(g, SumSq(head), SumSq(s[..m]), SumSq(tail), SumSq(s[m..]));
      SumSqConcat(head, tail);
      SumSqConcat(s[..m], s[m..]);
      assert s[..m] + s[m..] == s;
    }
  }

  // ---------- linearity of one pass ----------

  lemma {:induction false} SumsLinear(x: seq<real>, y: seq<real>)
    requires |x| == |y| && |x| % 2 == 0
    ensures Sums(Minus(x, y)) == Minus(Sums(x), Sums(y))
    ensures Diffs(Minus(x, y)) == Minus(Diffs(x), Diffs(y))
    decreases |x|
  {
    if |x| == 0 {
    } else {
      var k := |x| - 2;
      SumsLinear(x[..k], y[..k]);
      MinusSplit(x, y, k);
      var p, q, u, v := x[k], x[k + 1], y[k], y[k + 1];
      assert Minus(x, y)[k] == p - u && Minus(x, y)[k + 1] == q - v;
      MinusConcat(Sums(x[..k]), Sums(y[..k]), [p + q], [u + v]);
      MinusConcat(Diffs(x[..k]), Diffs(y[..k]), [p - q], [u - v]);
      assert Minus([p + q], [u + v]) == [(p - u) + (q - v)];
      assert Minus([p - q], [u - v]) == [(p - u) - (q - v)];
      hide Minus;
    }
  }

  lemma ButterflyBlockLinear(x: seq<real>, y: seq<real>)
    requires |x| == |y| && |x| % 2 == 0
    ensures ButterflyBlock(Minus(x, y)) == Minus(ButterflyBlock(x), ButterflyBlock(y))
  {
    hide Sums, Diffs;
    SumsLinear(x, y);
    MinusConcat(Sums(x), Sums(y), Diffs(x), Diffs(y));
  }

  lemma {:induction false} ButterflyPassLinear(x: seq<real>, y: seq<real>, c: nat, n: nat)
    requires |x| == |y| == Span(n, 2 * c)
    ensures ButterflyPass(Minus(x, y), c, n) == Minus(ButterflyPass(x, c, n), ButterflyPass(y, c, n))
    decreases n
  {
    hide ButterflyBlock, Minus;
    if n > 0 {
      var m := Span(n - 1, 2 * c);
      ButterflyPassLinear(x[..m], y[..m], c, n - 1);
      ButterflyBlockLinear(x[m..], y[m..]);
      MinusSplit(x, y, m);
      MinusConcat(ButterflyPass(x[..m], c, n - 1), ButterflyPass(y[..m], c, n - 1),
                  ButterflyBlock(x[m..]), ButterflyBlock(y[m..]));
    }
  }

  lemma RotateOneLinear(a: real, b: real, p: real, q: real, s: real, c: real)
    ensures LowOf(a - p, b - q, s, c) == LowOf(a, b, s, c) - LowOf(p, q, s, c)
    ensures HighOf(a - p, b - q, s, c) == HighOf(a, b, s, c) - HighOf(p, q, s, c)
  {
  }

  lemma {:induction false} RotateLowLinear(x: seq<real>, y: seq<real>, p: seq<real>, q: seq<real>, sn: seq<real>, cs: seq<real>)
    requires |x| == |y| == |p| == |q| == |sn| == |cs|
    ensures RotateLow(Minus(x, p), Minus(y, q), sn, cs) == Minus(RotateLow(x, y, sn, cs), RotateLow(p, q, sn, cs))
    decreases |x|
  {
    hide LowOf, HighOf;
    if |x| > 0 {
      var k := |x| - 1;
      RotateLowLinear(x[..k], y[..k], p[..k], q[..k], sn[..k], cs[..k]);
      RotateOneLinear(x[k], y[k], p[k], q[k], sn[k], cs[k]);
      MinusSplit(x, p, k);
      MinusSplit(y, q, k);
    }
  }

  lemma {:induction false} RotateHighLinear(x: seq<real>, y: seq<real>, p: seq<real>, q: seq<real>, sn: seq<real>, cs: seq<real>)
    requires |x| == |y| == |p| == |q| == |sn| == |cs|
    ensures RotateHigh(Minus(x, p), Minus(y, q), sn, cs) == Minus(RotateHigh(x, y, sn, cs), RotateHigh(p, q, sn, cs))
    decreases |x|
  {
    hide LowOf, HighOf;
    if |x| > 0 {
      var k := |x| - 1;
      RotateHighLinear(x[..k], y[..k], p[..k], q[..k], sn[..k], cs[..k]);
      RotateOneLinear(x[k], y[k], p[k], q[k], sn[k], cs[k]);
      MinusSplit(x, p, k);
      MinusSplit(y, q, k);
    }
  }

  lemma RotationBlockLinear(x: seq<real>, y: seq<real>, c: nat, sn: seq<real>, cs: seq<real>)
    requires |x| == |y| == 2 * c && |sn| == |cs| == c
    ensures RotationBlock(Minus(x, y), c, sn, cs) == Minus(RotationBlock(x, c, sn, cs), RotationBlock(y, c, sn, cs))
  {
    hide RotateLow, RotateHigh;
    RotateLowLinear(x[..c], x[c..], y[..c], y[c..], sn, cs);
    RotateHighLinear(x[..c], x[c..], y[..c], y[c..], sn, cs);
    MinusSplit(x, y, c);
  }

  lemma {:induction false} RotationPassLinear(x: seq<real>, y: seq<real>, c: nat, n: nat, sn: seq<real>, cs: seq<real>)
    requires |x| == |y| == Span(n, 2 * c) && |sn| == |cs| == Span(n, c)
    ensures RotationPass(Minus(x, y), c, n, sn, cs)
         == Minus(RotationPass(x, c, n, sn, cs), RotationPass(y, c, n, sn, cs))
    decreases n
  {
    hide RotationBlock, Minus;
    if n > 0 {
      var m, t := Span(n - 1, 2 * c), Span(n - 1, c);
      var sl, cl, sr, cr := sn[..t], cs[..t], sn[t..], cs[t..];
      RotationPassLinear(x[..m], y[..m], c, n - 1, sl, cl);
      RotationBlockLinear(x[m..], y[m..], c, sr, cr);
      MinusSplit(x, y, m);
      MinusConcat(RotationPass(x[..m], c, n - 1, sl, cl), RotationPass(y[..m], c, n - 1, sl, cl),
                  RotationBlock(x[m..], c, sr, cr), RotationBlock(y[m..], c, sr, cr));
    }
  }
}

/**
  The fourteen passes of the inverse transform undone one by one: half sums and half differences
  for the first network, the opposite rotations for the second, all in plain arithmetic.
 */
module Inverse {
  import opened Common
  import opened Energy
  import opened Networks
  import opened Transform

  // ---------- one block of the first network ----------

  lemma {:induction false} SumsAt(b: seq<real>, k: nat)
    requires |b| % 2 == 0 && k < |b| / 2
    ensures Sums(b)[k] == b[2 * k] + b[2 * k + 1] && Diffs(b)[k] == b[2 * k] - b[2 * k + 1]
    decreases |b|
  {
    if k < |b| / 2 - 1 {
      SumsAt(b[..|b| - 2], k);
    }
  }

  /** Neighbours from their half sum and half difference. */
  function UnButterflyBlock(r: seq<real>): (b: seq<real>)
    requires |r| % 2 == 0
    ensures |b| == |r|
  {
    var c := |r| / 2;
    seq(|r|, i requires 0 <= i < |r| =>
      if i % 2 == 0 then (r[i / 2] + r[c + i / 2]) / 2.0 else (r[i / 2] - r[c + i / 2]) / 2.0)
  }

  lemma ButterflyUndone(b: seq<real>)
    requires |b| % 2 == 0
    ensures UnButterflyBlock(ButterflyBlock(b)) == b
  {
    var r := ButterflyBlock(b);
    forall i | 0 <= i < |b| ensures UnButterflyBlock(r)[i] == b[i] {
      SumsAt(b, i / 2);
      assert r[i / 2] == Sums(b)[i / 2] && r[|b| / 2 + i / 2] == Diffs(b)[i / 2];
      hide Sums, Diffs;
    }
  }

  // ---------- one block of the second network ----------

  lemma {:induction false} RotateAtSlot(x: seq<real>, y: seq<real>, sn: seq<real>, cs: seq<real>, k: nat)
    requires |x| == |y| == |sn| == |cs| && k < |x|
    ensures RotateLow(x, y, sn, cs)[k] == LowOf(x[k], y[k], sn[k], cs[k])
    ensures RotateHigh(x, y, sn, cs)[|x| - 1 - k] == HighOf(x[k], y[k], sn[k], cs[k])
    decreases |x|
  {
    hide LowOf, HighOf;
    var n := |x| - 1;
    if k < n {
      RotateAtSlot(x[..n], y[..n], sn[..n], cs[..n], k);
    }
  }

  lemma Turned(a: real, b: real, s: real, c: real)
    ensures LowOf(a, b, s, c) == a * s - b * c && HighOf(a, b, s, c) == a * c + b * s
  {
  }

  /** A rotation block slot by slot: the upper half is written backwards. */
  lemma RotationBlockAt(b: seq<real>, c: nat, sn: seq<real>, cs: seq<real>, k: nat)
    requires |b| == 2 * c && |sn| == |cs| == c && k < c
    ensures var r := RotationBlock(b, c, sn, cs);
      r[k] == b[k] * sn[k] - b[c + k] * cs[k] && r[2 * c - 1 - k] == b[k] * cs[k] + b[c + k] * sn[k]
  {
    RotateAtSlot(b[..c], b[c..], sn, cs, k);
    Turned(b[k], b[c + k], sn[k], cs[k]);
    hide RotateLow, RotateHigh, LowOf, HighOf;
  }

  /** The rotation back, times the inverse of the squared length of sine and cosine. */
  function UnRotationBlock(r: seq<real>, c: nat, sn: seq<real>, cs: seq<real>, f: real): (b: seq<real>)
    requires |r| == 2 * c && |sn| == |cs| == c
    ensures |b| == |r|
  {
    seq(2 * c, i requires 0 <= i < 2 * c =>
      if i < c then f * (r[i] * sn[i] + r[2 * c - 1 - i] * cs[i])
      else f * (r[3 * c - 1 - i] * sn[i - c] - r[i - c] * cs[i - c]))
  }

  lemma TurnedBack(a: real, b: real, s: real, c: real, g: real, f: real, low: real, high: real)
    requires Sq(s) + Sq(c) == g && f * g == 1.0 && low == a * s - b * c && high == a * c + b * s
    ensures f * (low * s + high * c) == a && f * (high * s - low * c) == b
  {
    assert low * s + high * c == a * g by {
      assert low * s == a * (s * s) - b * (c * s);
      assert high * c == a * (c * c) + b * (c * s);
      assert a * g == a * (s * s) + a * (c * c);
    }
    assert high * s - low * c == b * g by {
      assert high * s == a * (c * s) + b * (s * s);
      assert low * c == a * (c * s) - b * (c * c);
      assert b * g == b * (s * s) + b * (c * c);
    }
    Cancelled(a, g, f);
    Cancelled(b, g, f);
  }

  lemma Cancelled(a: real, g: real, f: real)
    requires f * g == 1.0
    ensures f * (a * g) == a
  {
    calc {
      f * (a * g);
      a * (f * g);
      a;
    }
  }

  lemma RotationUndone(b: seq<real>, c: nat, sn: seq<real>, cs: seq<real>, g: real, f: real)
    requires |b| == 2 * c && |sn| == |cs| == c && Unitary(sn, cs, g) && f * g == 1.0
    ensures UnRotationBlock(RotationBlock(b, c, sn, cs), c, sn, cs, f) == b
  {
    var r := RotationBlock(b, c, sn, cs);
    hide RotationBlock, Sq;
    forall i | 0 <= i < 2 * c ensures UnRotationBlock(r, c, sn, cs, f)[i] == b[i] {
      var k := if i < c then i else i - c;
      RotationBlockAt(b, c, sn, cs, k);
      TurnedBack(b[k], b[c + k], sn[k], cs[k], g, f, r[k], r[2 * c - 1 - k]);
    }
  }

  // ---------- whole passes ----------

  function UnButterflyPass(r: seq<real>, c: nat, n: nat): (s: seq<real>)
    requires |r| == Span(n, 2 * c)
    ensures |s| == |r|
    decreases n
  {
    if n == 0 then r else
      var m := Span(n - 1, 2 * c);
      UnButterflyPass(r[..m], c, n - 1) + UnButterflyBlock(r[m..])
  }

  lemma {:induction false} ButterflyPassUndone(s: seq<real>, c: nat, n: nat)
    requires |s| == Span(n, 2 * c)
    ensures UnButterflyPass(ButterflyPass(s, c, n), c, n) == s
    decreases n
  {
    hide ButterflyBlock, UnButterflyBlock;
    if n > 0 {
      var m := Span(n - 1, 2 * c);
      var head, tail := ButterflyPass(s[..m], c, n - 1), ButterflyBlock(s[m..]);
      assert (head + tail)[..m] == head && (head + tail)[m..] == tail;
      ButterflyPassUndone(s[..m], c, n - 1);
      ButterflyUndone(s[m..]);
    }
  }

  function UnRotationPass(r: seq<real>, c: nat, n: nat, sn: seq<real>, cs: seq<real>, f: real): (s: seq<real>)
    requires |r| == Span(n, 2 * c) && |sn| == |cs| == Span(n, c)
    ensures |s| == |r|
    decreases n
  {
    if n == 0 then r else
      var m, t := Span(n - 1, 2 * c), Span(n - 1, c);
      UnRotationPass(r[..m], c, n - 1, sn[..t], cs[..t], f) + UnRotationBlock(r[m..], c, sn[t..], cs[t..], f)
  }

  lemma {:induction false} RotationPassUndone(s: seq<real>, c: nat, n: nat, sn: seq<real>, cs: seq<real>, g: real, f: real)
    requires |s| == Span(n, 2 * c) && |sn| == |cs| == Span(n, c) && Unitary(sn, cs, g) && f * g == 1.0
    ensures UnRotationPass(RotationPass(s, c, n, sn, cs), c, n, sn, cs, f) == s
    decreases n
  {
    hide RotationBlock, UnRotationBlock, Sq;
    if n > 0 {
      var m, t := Span(n - 1, 2 * c), Span(n - 1, c);
      var head, tail := RotationPass(s[..m], c, n - 1, sn[..t], cs[..t]), RotationBlock(s[m..], c, sn[t..], cs[t..]);
      assert (head + tail)[..m] == head && (head + tail)[m..] == tail;
      RotationPassUndone(s[..m], c, n - 1, sn[..t], cs[..t], g, f);
      RotationUndone(s[m..], c, sn[t..], cs[t..], g, f);
    }
  }

  // ---------- all fourteen ----------

  /** Half the width of a block in the passes of either network. */
  function HalfWidth(i: nat): nat
    requires i < MDCT_BITS
  {
    [1, 2, 4, 8, 16, 32, 64][i]
  }

  lemma HalfWidthIs(i: nat)
    requires i < MDCT_BITS
    ensures HalfWidth(i) == Pow2(i) && HalfWidth(6 - i) == Pow2(6 - i)
    ensures Span(HalfWidth(6 - i), 2 * HalfWidth(i)) == SIZE && Span(HalfWidth(6 - i), HalfWidth(i)) == HALF
    ensures Span(HalfWidth(i), 2 * HalfWidth(6 - i)) == SIZE
  {
    assert Pow2(0) == 1 && Pow2(1) == 2 && Pow2(2) == 4 && Pow2(3) == 8 && Pow2(4) == 16 && Pow2(5) == 32 && Pow2(6) == 64;
    hide Span, Pow2;
    PassShape(i);
  }

  /** The first network backwards: the i-th pass has blocks of width 128 / 2^i. */
  function UnButterflies(r: Block, m: nat): (s: Block)
    requires m <= MDCT_BITS
    decreases m
  {
    if m == 0 then r else
      HalfWidthIs(m - 1);
      UnButterflies(UnButterflyPass(r, HalfWidth(7 - m), HalfWidth(m - 1)), m - 1)
  }

  /** The second network backwards: the i-th pass has blocks of width 2^(i + 1), the first one the gain of 128. */
  function UnRotations(t: Tables, r: Block, m: nat): (s: Block)
    requires t.WellFormed() && m <= MDCT_BITS
    decreases m
  {
    if m == 0 then r else
      HalfWidthIs(m - 1);
      UnRotations(t, UnRotationPass(r, HalfWidth(m - 1), HalfWidth(7 - m), t.sn[m - 1], t.cs[m - 1], if m == 1 then 128.0 else 1.0),
                  m - 1)
  }

  function Spectrum(t: Tables, r: Block): Block
    requires t.WellFormed()
  {
    UnButterflies(UnRotations(t, r, MDCT_BITS), MDCT_BITS)
  }

  lemma {:induction false} ButterfliesUndone(s: Block, m: nat)
    requires m <= MDCT_BITS
    ensures UnButterflies(Butterflies(s, m), m) == s
  {
    hide ButterflyPass, UnButterflyPass, HalfWidth;
    if m > 0 {
      HalfWidthIs(m - 1);
      PassShape(m - 1);
      hide Span, Pow2;
      ButterflyPassUndone(Butterflies(s, m - 1), Pow2(7 - m), Pow2(m - 1));
      ButterfliesUndone(s, m - 1);
    }
  }

  lemma {:induction false} RotationsUndone(t: Tables, s: Block, m: nat)
    requires t.Ideal() && m <= MDCT_BITS
    ensures UnRotations(t, Rotations(t, s, m), m) == s
  {
    hide RotationPass, UnRotationPass, HalfWidth, Unitary;
    if m > 0 {
      HalfWidthIs(m - 1);
      PassShape(m - 1);
      hide Span, Pow2;
      if m == 1 {
        RotationPassUndone(Rotations(t, s, m - 1), Pow2(m - 1), Pow2(7 - m), t.sn[m - 1], t.cs[m - 1], 1.0 / 128.0, 128.0);
      } else {
        RotationPassUndone(Rotations(t, s, m - 1), Pow2(m - 1), Pow2(7 - m), t.sn[m - 1], t.cs[m - 1], 1.0, 1.0);
      }
      RotationsUndone(t, s, m - 1);
    }
  }

  /** Every spectrum comes back from its block by half sums, half differences and opposite rotations. */
  lemma DctUndone(t: Tables, x: Block)
    requires t.Ideal()
    ensures Spectrum(t, Dct(t, x)) == x
  {
    hide Butterflies, Rotations, UnButterflies, UnRotations, Tables.Ideal;
    RotationsUndone(t, Butterflies(x, MDCT_BITS), MDCT_BITS);
    ButterfliesUndone(x, MDCT_BITS);
  }
}

/**
  The inverse transform of one 128-sample block and the windowed overlap-add
  that joins consecutive blocks, with their laws over whole runs.
  Samples are reals; the tables are any tables meeting their ideal identities.
 */
module Transform {
  import opened Common
  import opened Energy
  import opened Networks

  const SIZE := 128
  const HALF := 64
  const MDCT_BITS := 7

  type Block = s: seq<real> | |s| == 128 witness seq(128, i => 0.0)

  /** Sine and cosine tables of the seven rotation passes, and the overlap window. */
  datatype Tables = Tables(sn: seq<seq<real>>, cs: seq<seq<real>>, window: seq<real>)
  {
    predicate WellFormed()
    {
      |sn| == |cs| == MDCT_BITS && |window| == SIZE
      && (forall i :: 0 <= i < MDCT_BITS ==> |sn[i]| == HALF)
      && (forall i :: 0 <= i < MDCT_BITS ==> |cs[i]| == HALF)
    }

    /** The identities the tables approximate: pass 0 carries the whole 1/128 gain. */
    ghost predicate Ideal()
    {
      WellFormed()
      && Unitary(sn[0], cs[0], 1.0 / 128.0)
      && (forall i :: 1 <= i < MDCT_BITS ==> Unitary(sn[i], cs[i], 1.0))
      && forall i :: 0 <= i < HALF ==> Sq(window[i]) + Sq(window[127 - i]) == 1.0
    }
  }

  // ---------- the fourteen passes ----------

  /** Pass i splits the block evenly, whichever way the counts run. */
  lemma PassShape(i: nat)
    requires i < MDCT_BITS
    ensures Span(Pow2(i), 2 * Pow2(6 - i)) == SIZE
    ensures Span(Pow2(6 - i), 2 * Pow2(i)) == SIZE && Span(Pow2(6 - i), Pow2(i)) == HALF
  {
    assert Pow2(6) == 64;
    hide Pow2, Span;
    Pow2Add(i, 6 - i);
    Pow2Add(6 - i, i);
    SpanIsProduct(Pow2(i), Pow2(6 - i));
    SpanIsProduct(Pow2(6 - i), Pow2(i));
    SpanDouble(Pow2(i), Pow2(6 - i));
    SpanDouble(Pow2(6 - i), Pow2(i));
  }

  function ButterflyStage(s: Block, i: nat): (r: Block)
    requires i < MDCT_BITS
  {
    PassShape(i);
    ButterflyPass(s, Pow2(6 - i), Pow2(i))
  }

  function RotationStage(t: Tables, s: Block, i: nat): (r: Block)
    requires t.WellFormed() && i < MDCT_BITS
  {
    PassShape(i);
    RotationPass(s, Pow2(i), Pow2(6 - i), t.sn[i], t.cs[i])
  }

  function Butterflies(s: Block, m: nat): (r: Block)
    requires m <= MDCT_BITS
  {
    if m == 0 then s else ButterflyStage(Butterflies(s, m - 1), m - 1)
  }

  function Rotations(t: Tables, s: Block, m: nat): (r: Block)
    requires t.WellFormed() && m <= MDCT_BITS
  {
    if m == 0 then s else RotationStage(t, Rotations(t, s, m - 1), m - 1)
  }

  /** The block that the overlap-add step works on. */
  function Dct(t: Tables, spectra: Block): (r: Block)
    requires t.WellFormed()
  {
    Rotations(t, Butterflies(spectra, MDCT_BITS), MDCT_BITS)
  }

  lemma ButterflyStageEnergy(s: Block, i: nat)
    requires i < MDCT_BITS
    ensures SumSq(ButterflyStage(s, i)) == Times(2.0, SumSq(s))
  {
    hide SumSq, Times;
    PassShape(i);
    ButterflyPassEnergy(s, Pow2(6 - i), Pow2(i));
  }

  function Gain(m: nat): real
  {
    if m == 0 then 1.0 else 2.0 * Gain(m - 1)
  }

  lemma {:induction false} ButterfliesEnergy(s: Block, m: nat)
    requires m <= MDCT_BITS
    ensures SumSq(Butterflies(s, m)) == Times(Gain(m), SumSq(s))
  {
    hide SumSq, ButterflyStage;
    if m == 0 {
    } else {
      hide Times;
      ButterfliesEnergy(s, m - 1);
      ButterflyStageEnergy(Butterflies(s, m - 1), m - 1);
      TimesTimes(2.0, Gain(m - 1), SumSq(s));
    }
  }

  lemma RotationStageEnergy(t: Tables, s: Block, i: nat, g: real)
    requires t.WellFormed() && i < MDCT_BITS && Unitary(t.sn[i], t.cs[i], g)
    ensures SumSq(RotationStage(t, s, i)) == Times(g, SumSq(s))
  {
    hide SumSq, Times;
    PassShape(i);
    RotationPassEnergy(s, Pow2(i), Pow2(6 - i), t.sn[i], t.cs[i], g);
  }

  lemma {:induction false} RotationsEnergy(t: Tables, s: Block, m: nat)
    requires t.Ideal() && 1 <= m <= MDCT_BITS
    ensures SumSq(Rotations(t, s, m)) == Times(1.0 / 128.0, SumSq(s))
  {
    hide SumSq, RotationStage;
    if m == 1 {
      RotationStageEnergy(t, s, 0, 1.0 / 128.0);
      assert Rotations(t, s, 0) == s;
    } else {
      RotationsEnergy(t, s, m - 1);
      RotationStageEnergy(t, Rotations(t, s, m - 1), m - 1, 1.0);
    }
  }

  lemma UndoGain(e: real)
    ensures Times(1.0 / 128.0, Times(128.0, e)) == e
  {
  }

  /** The fourteen passes together neither gain nor lose energy: 128 up, 1/128 down. */
  lemma DctEnergy(t: Tables, s: Block)
    requires t.Ideal()
    ensures SumSq(Dct(t, s)) == SumSq(s)
  {
    hide SumSq, Times, Butterflies, Rotations, Unitary;
    ButterfliesEnergy(s, MDCT_BITS);
    assert Gain(MDCT_BITS) == 128.0;
    RotationsEnergy(t, Butterflies(s, MDCT_BITS), MDCT_BITS);
    UndoGain(SumSq(s));
  }

  lemma {:induction false} ButterfliesLinear(x: Block, y: Block, m: nat)
    requires m <= MDCT_BITS
    ensures Butterflies(Minus(x, y), m) == Minus(Butterflies(x, m), Butterflies(y, m))
  {
    if m == 0 {
    } else {
      ButterfliesLinear(x, y, m - 1);
      PassShape(m - 1);
      ButterflyPassLinear(Butterflies(x, m - 1), Butterflies(y, m - 1), Pow2(7 - m), Pow2(m - 1));
    }
  }

  lemma {:induction false} RotationsLinear(t: Tables, x: Block, y: Block, m: nat)
    requires t.WellFormed() && m <= MDCT_BITS
    ensures Rotations(t, Minus(x, y), m) == Minus(Rotations(t, x, m), Rotations(t, y, m))
  {
    if m == 0 {
    } else {
      RotationsLinear(t, x, y, m - 1);
      PassShape(m - 1);
      RotationPassLinear(Rotations(t, x, m - 1), Rotations(t, y, m - 1), Pow2(m - 1), Pow2(7 - m), t.sn[m - 1], t.cs[m - 1]);
    }
  }

  /** No two spectra share a transformed block. */
  lemma DctInjective(t: Tables, x: Block, y: Block)
    requires t.Ideal() && Dct(t, x) == Dct(t, y)
    ensures x == y
  {
    var d := Minus(x, y);
    ButterfliesLinear(x, y, MDCT_BITS);
    RotationsLinear(t, Butterflies(x, MDCT_BITS), Butterflies(y, MDCT_BITS), MDCT_BITS);
    DctEnergy(t, d);
    SelfMinus(Dct(t, x));
    SumSqMinusZero(x, y);
  }

  lemma {:induction false} SelfMinus(x: seq<real>)
    ensures SumSq(Minus(x, x)) == 0.0
    decreases |x|
  {
    if |x| > 0 {
      var n := |x| - 1;
      SelfMinus(x[..n]);
      MinusSplit(x, x, n);
      assert Minus(x, x)[n] == 0.0;
    }
  }

  // ---------- windowed overlap-add ----------

  function WaveAt(w: seq<real>, dct: Block, prev: Block, i: nat): real
    requires |w| == 128 && i < 128
  {
    if i < 64 then w[i] * dct[64 + i] + prev[i] else w[i] * dct[191 - i] - prev[i]
  }

  function SavedAt(w: seq<real>, dct: Block, i: nat): real
    requires |w| == 128 && i < 128
  {
    if i < 64 then w[127 - i] * dct[63 - i] else w[127 - i] * dct[i - 64]
  }

  /** The samples put out for a block, given what the previous block left behind. */
  function Wave(t: Tables, dct: Block, prev: Block): (r: Block)
    requires t.WellFormed()
  {
    seq(128, i requires 0 <= i < 128 => WaveAt(t.window, dct, prev, i))
  }

  /** What a block leaves behind for the next one. */
  function Saved(t: Tables, dct: Block): (r: Block)
    requires t.WellFormed()
  {
    seq(128, i requires 0 <= i < 128 => SavedAt(t.window, dct, i))
  }

  function Silence(): Block { seq(128, i requires 0 <= i < 128 => 0.0) }

  /** The property of the saved half-blocks that every step keeps. */
  ghost predicate Balanced(t: Tables, prev: Block)
    requires t.WellFormed()
  {
    forall i :: 0 <= i < 64 ==> Times(t.window[i], prev[i]) == Times(t.window[127 - i], prev[127 - i])
  }

  lemma SilenceBalanced(t: Tables)
    requires t.WellFormed()
    ensures Balanced(t, Silence())
  {
  }

  lemma ExchangeFactors(a: real, b: real, d: real)
    ensures Times(a, b * d) == Times(b, a * d)
  {
  }

  lemma SavedBalanced(t: Tables, dct: Block)
    requires t.WellFormed()
    ensures Balanced(t, Saved(t, dct))
  {
    forall i | 0 <= i < 64
      ensures Times(t.window[i], Saved(t, dct)[i]) == Times(t.window[127 - i], Saved(t, dct)[127 - i])
    {
      ExchangeFactors(t.window[i], t.window[127 - i], dct[63 - i]);
      hide Times;
    }
  }

  /** One mirrored pair of output samples: a plane reflection of the new half against the old one. */
  lemma PairEnergy(w: real, v: real, x: real, p: real, q: real, first: real, second: real)
    requires Sq(w) + Sq(v) == 1.0 && Times(w, p) == Times(v, q)
    requires first == w * x + p && second == v * x - q
    ensures Sq(first) + Sq(second) == Sq(x) + (Sq(p) + Sq(q))
  {
    calc {
      Sq(first) + Sq(second);
      (w * w + v * v) * (x * x) + 2.0 * x * (w * p - v * q) + p * p + q * q;
      x * x + p * p + q * q;
    }
  }

  lemma SavedPairEnergy(w: real, v: real, d: real, first: real, second: real)
    requires Sq(w) + Sq(v) == 1.0
    requires first == v * d && second == w * d
    ensures Sq(first) + Sq(second) == Sq(d)
  {
    calc {
      Sq(first) + Sq(second);
      (w * w + v * v) * (d * d);
      d * d;
    }
  }

  /** Energy of the k outermost mirrored pairs. */
  function MirrorSum(s: Block, k: nat): real
    requires k <= 64
  {
    if k == 0 then 0.0 else MirrorSum(s, k - 1) + (Sq(s[k - 1]) + Sq(s[128 - k]))
  }

  lemma {:induction false} MirrorSumIsSumSq(s: Block, k: nat)
    requires k <= 64
    ensures SumSq(s) == MirrorSum(s, k) + SumSq(s[k..128 - k])
  {
    hide Sq;
    if k == 0 {
      assert s[0..128] == s;
    } else {
      MirrorSumIsSumSq(s, k - 1);
      var a, mid, b := s[k - 1], s[k..128 - k], s[128 - k];
      SplitEnds(s, k - 1, 129 - k);
      SumSqConcat3([a], mid, [b]);
      SumSqSingleton(a);
      SumSqSingleton(b);
    }
  }

  /** Energy of the k innermost mirrored pairs, counted outwards from the middle. */
  function CentreSum(s: Block, k: nat): real
    requires k <= 64
  {
    if k == 0 then 0.0 else CentreSum(s, k - 1) + (Sq(s[63 + k]) + Sq(s[64 - k]))
  }

  lemma {:induction false} CentreSumIsSumSq(s: Block, k: nat)
    requires k <= 64
    ensures SumSq(s[64 - k..64 + k]) == CentreSum(s, k)
  {
    hide Sq;
    if k == 0 {
      assert s[64..64] == [];
    } else {
      CentreSumIsSumSq(s, k - 1);
      var a, mid, b := s[64 - k], s[65 - k..63 + k], s[63 + k];
      SplitEnds(s, 64 - k, 64 + k);
      SumSqConcat3([a], mid, [b]);
      SumSqSingleton(a);
      SumSqSingleton(b);
    }
  }

  lemma {:induction false} OverlapEnergyPairs(t: Tables, dct: Block, prev: Block, k: nat)
    requires t.Ideal() && Balanced(t, prev) && k <= 64
    ensures MirrorSum(Wave(t, dct, prev), k) + MirrorSum(Saved(t, dct), k) == CentreSum(dct, k) + MirrorSum(prev, k)
  {
    hide Sq, Times;
    if k > 0 {
      var i := k - 1;
      OverlapEnergyPairs(t, dct, prev, i);
      var wave, saved := Wave(t, dct, prev), Saved(t, dct);
      PairEnergy(t.window[i], t.window[127 - i], dct[64 + i], prev[i], prev[127 - i], wave[i], wave[127 - i]);
      SavedPairEnergy(t.window[i], t.window[127 - i], dct[63 - i], saved[i], saved[127 - i]);
    }
  }

  /** One overlap-add step conserves energy: output plus carry equals block plus old carry. */
  lemma OverlapEnergy(t: Tables, dct: Block, prev: Block)
    requires t.Ideal() && Balanced(t, prev)
    ensures SumSq(Wave(t, dct, prev)) + SumSq(Saved(t, dct)) == SumSq(dct) + SumSq(prev)
  {
    OverlapEnergyPairs(t, dct, prev, 64);
    MirrorSumIsSumSq(Wave(t, dct, prev), 64);
    MirrorSumIsSumSq(Saved(t, dct), 64);
    MirrorSumIsSumSq(prev, 64);
    CentreSumIsSumSq(dct, 64);
    assert dct[0..128] == dct;
  }

  // ---------- runs ----------

  datatype RunResult = RunResult(waves: seq<Block>, carry: Block)

  /** A run of transform calls on one channel, block after block. */
  function Run(t: Tables, start: Block, blocks: seq<Block>): (r: RunResult)
    requires t.WellFormed()
    ensures |r.waves| == |blocks|
  {
    if blocks == [] then RunResult([], start) else
      var n := |blocks| - 1;
      var before := Run(t, start, blocks[..n]);
      var dct := Dct(t, blocks[n]);
      RunResult(before.waves + [Wave(t, dct, before.carry)], Saved(t, dct))
  }

  /** The last step of a non-empty run. */
  lemma RunLast(t: Tables, start: Block, blocks: seq<Block>, n: nat)
    requires t.WellFormed() && |blocks| == n + 1
    ensures var r, before := Run(t, start, blocks), Run(t, start, blocks[..n]);
      var dct := Dct(t, blocks[n]);
      r.waves[..n] == before.waves && r.waves[n] == Wave(t, dct, before.carry) && r.carry == Saved(t, dct)
  {
  }

  /** A run goes on where another one stopped. */
  lemma {:induction false} RunJoin(t: Tables, start: Block, a: seq<Block>, b: seq<Block>)
    requires t.WellFormed()
    ensures var first := Run(t, start, a);
      var rest := Run(t, first.carry, b);
      Run(t, start, a + b) == RunResult(first.waves + rest.waves, rest.carry)
    decreases |b|
  {
    hide Wave, Saved, Dct;
    if b == [] {
      assert a + b == a;
      RunEmpty(t, Run(t, start, a).carry);
      assert Run(t, start, a).waves + [] == Run(t, start, a).waves;
    } else {
      var n := |b| - 1;
      assert (a + b)[..|a + b| - 1] == a + b[..n];
      RunJoin(t, start, a, b[..n]);
    }
  }

  function TotalEnergy(blocks: seq<Block>): real
  {
    if blocks == [] then 0.0 else TotalEnergy(blocks[..|blocks| - 1]) + SumSq(blocks[|blocks| - 1])
  }

  lemma {:induction false} RunBalanced(t: Tables, start: Block, blocks: seq<Block>)
    requires t.WellFormed() && Balanced(t, start)
    ensures Balanced(t, Run(t, start, blocks).carry)
  {
    if blocks != [] {
      SavedBalanced(t, Dct(t, blocks[|blocks| - 1]));
    }
  }

  /** Energy is conserved over every run, whatever its length and its spectra. */
  lemma {:induction false} RunEnergy(t: Tables, start: Block, blocks: seq<Block>)
    requires t.Ideal() && Balanced(t, start)
    ensures var r := Run(t, start, blocks);
      TotalEnergy(r.waves) + SumSq(r.carry) == TotalEnergy(blocks) + SumSq(start)
  {
    if blocks != [] {
      var n := |blocks| - 1;
      var before := Run(t, start, blocks[..n]);
      var dct := Dct(t, blocks[n]);
      RunEnergy(t, start, blocks[..n]);
      RunBalanced(t, start, blocks[..n]);
      DctEnergy(t, blocks[n]);
      OverlapEnergy(t, dct, before.carry);
      assert Run(t, start, blocks).waves[..n] == before.waves;
    }
  }

  /** After a reset, all output energy plus the last carry is exactly the input energy. */
  lemma RunEnergyFromReset(t: Tables, blocks: seq<Block>)
    requires t.Ideal()
    ensures var r := Run(t, Silence(), blocks);
      TotalEnergy(r.waves) + SumSq(r.carry) == TotalEnergy(blocks)
  {
    SilenceBalanced(t);
    RunEnergy(t, Silence(), blocks);
    SilentEnergy(Silence());
  }

  lemma {:induction false} SilentEnergy(s: seq<real>)
    requires forall i :: 0 <= i < |s| ==> s[i] == 0.0
    ensures SumSq(s) == 0.0
    decreases |s|
  {
    if |s| > 0 {
      SilentEnergy(s[..|s| - 1]);
    }
  }

  // ---------- nothing is lost ----------

  /** Solving one mirrored output pair for the new upper half sample. */
  lemma PairUpper(w: real, v: real, x: real, p: real, q: real)
    requires Sq(w) + Sq(v) == 1.0 && Times(w, p) == Times(v, q)
    ensures Times(w, w * x + p) + Times(v, v * x - q) == x
  {
    calc {
      Times(w, w * x + p) + Times(v, v * x - q);
      (w * w + v * v) * x + (w * p - v * q);
      x;
    }
  }

  /** Solving the same pair for the old lower half sample that the carry was made from. */
  lemma PairLower(w: real, v: real, x: real, y: real)
    requires Sq(w) + Sq(v) == 1.0
    ensures Times(v, w * x + v * y) - Times(w, v * x - w * y) == y
  {
    calc {
      Times(v, w * x + v * y) - Times(w, v * x - w * y);
      (w * w + v * v) * y;
      y;
    }
  }

  lemma CarryLower(w: real, v: real, y: real)
    requires Sq(w) + Sq(v) == 1.0
    ensures Times(v, v * y) + Times(w, w * y) == y
  {
    calc {
      Times(v, v * y) + Times(w, w * y);
      (w * w + v * v) * y;
      y;
    }
  }

  /** The reflection read backwards: waves give back the upper half of the new block. */
  lemma WaveGivesUpperHalf(t: Tables, dct: Block, prev: Block, i: nat)
    requires t.Ideal() && Balanced(t, prev) && i < 64
    ensures dct[64 + i]
         == Times(t.window[i], Wave(t, dct, prev)[i]) + Times(t.window[127 - i], Wave(t, dct, prev)[127 - i])
  {
    PairUpper(t.window[i], t.window[127 - i], dct[64 + i], prev[i], prev[127 - i]);
    hide Times, Sq;
  }

  /** ... and the lower half of the block before it. */
  lemma WaveGivesOldLowerHalf(t: Tables, dct: Block, old': Block, i: nat)
    requires t.Ideal() && i < 64
    ensures var wave := Wave(t, dct, Saved(t, old'));
      old'[63 - i] == Times(t.window[127 - i], wave[i]) - Times(t.window[i], wave[127 - i])
  {
    PairLower(t.window[i], t.window[127 - i], dct[64 + i], old'[63 - i]);
    hide Times, Sq;
  }

  /** The carry alone gives the lower half of the last block. */
  lemma CarryGivesLowerHalf(t: Tables, dct: Block, i: nat)
    requires t.Ideal() && i < 64
    ensures dct[63 - i] == Times(t.window[127 - i], Saved(t, dct)[i]) + Times(t.window[i], Saved(t, dct)[127 - i])
  {
    CarryLower(t.window[i], t.window[127 - i], dct[63 - i]);
    hide Times, Sq;
  }

  lemma StepLosesNothing(t: Tables, x: Block, y: Block, p: Block, q: Block)
    requires t.Ideal() && Balanced(t, p) && Balanced(t, q)
    requires Wave(t, x, p) == Wave(t, y, q) && Saved(t, x) == Saved(t, y)
    ensures x == y && p == q
  {
    hide Times;
    forall k | 0 <= k < 128 ensures x[k] == y[k] {
      if k >= 64 {
        WaveGivesUpperHalf(t, x, p, k - 64);
        WaveGivesUpperHalf(t, y, q, k - 64);
      } else {
        CarryGivesLowerHalf(t, x, 63 - k);
        CarryGivesLowerHalf(t, y, 63 - k);
      }
    }
    forall k | 0 <= k < 128 ensures p[k] == q[k] {
      assert Wave(t, x, p)[k] == Wave(t, y, q)[k];
    }
  }

  /**
    A run is determined by its waves and its last carry: two runs from balanced carries
    that put out the same samples and leave the same carry decoded the same spectra from
    the same start.
   */
  lemma {:induction false} RunLosesNothing(t: Tables, start: Block, start': Block, a: seq<Block>, b: seq<Block>)
    requires t.Ideal() && Balanced(t, start) && Balanced(t, start')
    requires Run(t, start, a) == Run(t, start', b)
    ensures a == b && start == start'
  {
    hide Run, Wave, Saved, Dct, Balanced;
    var ra, rb := Run(t, start, a), Run(t, start', b);
    assert |ra.waves| == |a| && |rb.waves| == |b|;
    if a == [] {
      RunEmpty(t, start);
      RunEmpty(t, start');
    } else {
      var n := |a| - 1;
      RunLast(t, start, a, n);
      RunLast(t, start', b, n);
      RunBalanced(t, start, a[..n]);
      RunBalanced(t, start', b[..n]);
      StepLosesNothing(t, Dct(t, a[n]), Dct(t, b[n]), Run(t, start, a[..n]).carry, Run(t, start', b[..n]).carry);
      RunLosesNothing(t, start, start', a[..n], b[..n]);
      DctInjective(t, a[n], b[n]);
      assert a == a[..n] + [a[n]] && b == b[..n] + [b[n]];
    }
  }

  lemma RunEmpty(t: Tables, start: Block)
    requires t.WellFormed()
    ensures Run(t, start, []).carry == start
  {
  }
}

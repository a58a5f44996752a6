/**
  The in-place transform of one subframe: two buffers are written turn by turn by the
  fourteen passes, then the output block and the carry are updated together.
 */
module Imdct {
  import opened Common
  import opened Networks
  import opened Transform

  lemma {:induction false} SumsDiffsAt(b: seq<real>)
    requires |b| % 2 == 0
    ensures forall i :: 0 <= i < |b| / 2 ==> Sums(b)[i] == b[2 * i] + b[2 * i + 1]
    ensures forall i :: 0 <= i < |b| / 2 ==> Diffs(b)[i] == b[2 * i] - b[2 * i + 1]
    decreases |b|
  {
    if |b| > 0 {
      SumsDiffsAt(b[..|b| - 2]);
    }
  }

  lemma ButterflyBlockAt(b: seq<real>, c: nat, r: seq<real>)
    requires |b| == |r| == 2 * c
    requires forall i :: 0 <= i < c ==> r[i] == b[2 * i] + b[2 * i + 1]
    requires forall i :: 0 <= i < c ==> r[c + i] == b[2 * i] - b[2 * i + 1]
    ensures r == ButterflyBlock(b)
  {
    SumsDiffsAt(b);
    hide Sums, Diffs;
    forall i | 0 <= i < 2 * c ensures r[i] == ButterflyBlock(b)[i] {
      if i >= c {
        assert r[i] == r[c + (i - c)];
      }
    }
  }

  /** The inner loop of a pass of sums and differences: one block. */
  method ButterflyBlockInto(src: array<real>, dst: array<real>, count2: nat, d1: nat, d2: nat, t1: nat)
    returns (d1Idx: nat, d2Idx: nat, t1Idx: nat)
    requires src != dst && src.Length == dst.Length
    requires t1 == d1 && d2 == d1 + count2 && d1 + 2 * count2 <= src.Length
    modifies dst
    ensures d1Idx == d1 + count2 && d2Idx == d2 + count2 && t1Idx == t1 + 2 * count2
    ensures dst[..d1] == old(dst[..d1])
    ensures dst[..][d1..d1 + 2 * count2] == ButterflyBlock(src[..][d1..d1 + 2 * count2])
  {
    hide ButterflyBlock;
    d1Idx, d2Idx, t1Idx := d1, d2, t1;
    ghost var block, before := src[..][d1..d1 + 2 * count2], dst[..d1];
    var k := 0;
    while k < count2
      invariant 0 <= k <= count2
      invariant d1Idx == d1 + k && d2Idx == d2 + k && t1Idx == t1 + 2 * k
      invariant dst[..d1] == before
      invariant forall i :: 0 <= i < k ==> dst[d1 + i] == block[2 * i] + block[2 * i + 1]
      invariant forall i :: 0 <= i < k ==> dst[d2 + i] == block[2 * i] - block[2 * i + 1]
    {
      var a := src[t1Idx];
      t1Idx := t1Idx + 1;
      var b := src[t1Idx];
      t1Idx := t1Idx + 1;
      dst[d1Idx] := a + b;
      d1Idx := d1Idx + 1;
      dst[d2Idx] := a - b;
      d2Idx := d2Idx + 1;
      k := k + 1;
    }
    ButterflyBlockAt(block, count2, dst[..][d1..d1 + 2 * count2]);
  }

  lemma ButterflyPassNone(s: seq<real>, c: nat)
    ensures ButterflyPass(s[..0], c, 0) == []
  {
  }

  /** A prefix of whole blocks grows by one block. */
  lemma ButterflyPassStep(s: seq<real>, c: nat, n: nat, m: nat, r: seq<real>)
    requires m == Span(n, 2 * c) && m + 2 * c <= |s| == |r|
    requires r[..m] == ButterflyPass(s[..m], c, n)
    requires r[m..m + 2 * c] == ButterflyBlock(s[m..m + 2 * c])
    ensures r[..m + 2 * c] == ButterflyPass(s[..m + 2 * c], c, n + 1)
  {
    hide ButterflyBlock;
    assert s[..m + 2 * c][..m] == s[..m] && s[..m + 2 * c][m..] == s[m..m + 2 * c];
    assert r[..m + 2 * c] == r[..m] + r[m..m + 2 * c];
  }

  /** One pass of sums and differences, from src into dst. */
  method ButterflyPassInto(src: array<real>, dst: array<real>, count1: nat, count2: nat)
    requires src != dst && src.Length == dst.Length == Span(count1, 2 * count2)
    modifies dst
    ensures dst[..] == ButterflyPass(src[..], count2, count1)
  {
    hide ButterflyBlock, ButterflyPass;
    ButterflyPassNone(src[..], count2);
    var d1Idx, d2Idx, t1Idx := 0, count2, 0;
    var j := 0;
    while j < count1
      invariant 0 <= j <= count1
      invariant d1Idx == t1Idx == Span(j, 2 * count2) <= src.Length && d2Idx == d1Idx + count2
      invariant dst[..d1Idx] == ButterflyPass(src[..][..d1Idx], count2, j)
    {
      ghost var base := d1Idx;
      SpanMonotone(j + 1, count1, 2 * count2);
      d1Idx, d2Idx, t1Idx := ButterflyBlockInto(src, dst, count2, d1Idx, d2Idx, t1Idx);
      d1Idx := d1Idx + count2;
      d2Idx := d2Idx + count2;
      j := j + 1;
      assert dst[..][..base] == dst[..base];
      ButterflyPassStep(src[..], count2, j - 1, base, dst[..]);
      assert dst[..][..d1Idx] == dst[..d1Idx];
    }
    assert src[..][..d1Idx] == src[..] && dst[..d1Idx] == dst[..];
  }

  lemma {:induction false} SpanMonotone(a: nat, b: nat, w: nat)
    requires a <= b
    ensures Span(a, w) <= Span(b, w)
    decreases b
  {
    if a < b {
      SpanMonotone(a, b - 1, w);
    }
  }

  lemma {:induction false} RotateAt(x: seq<real>, y: seq<real>, sn: seq<real>, cs: seq<real>, i: nat)
    requires |x| == |y| == |sn| == |cs| && i < |x|
    ensures RotateLow(x, y, sn, cs)[i] == LowOf(x[i], y[i], sn[i], cs[i])
    ensures RotateHigh(x, y, sn, cs)[|x| - 1 - i] == HighOf(x[i], y[i], sn[i], cs[i])
    decreases |x|
  {
    hide LowOf, HighOf;
    var k := |x| - 1;
    var low, high := RotateLow(x[..k], y[..k], sn[..k], cs[..k]), RotateHigh(x[..k], y[..k], sn[..k], cs[..k]);
    var a, b := LowOf(x[k], y[k], sn[k], cs[k]), HighOf(x[k], y[k], sn[k], cs[k]);
    assert RotateLow(x, y, sn, cs) == low + [a] && RotateHigh(x, y, sn, cs) == [b] + high;
    hide RotateLow, RotateHigh;
    if i < k {
      RotateAt(x[..k], y[..k], sn[..k], cs[..k], i);
      assert (low + [a])[i] == low[i] && ([b] + high)[k - i] == high[k - 1 - i];
    }
  }

  ghost function RotatedLow(b: seq<real>, c: nat, sn: seq<real>, cs: seq<real>, i: nat): real
    requires |b| == 2 * c && |sn| == |cs| == c && i < c
  {
    LowOf(b[i], b[c + i], sn[i], cs[i])
  }

  ghost function RotatedHigh(b: seq<real>, c: nat, sn: seq<real>, cs: seq<real>, i: nat): real
    requires |b| == 2 * c && |sn| == |cs| == c && i < c
  {
    HighOf(b[i], b[c + i], sn[i], cs[i])
  }

  lemma RotationBlockAt(b: seq<real>, c: nat, sn: seq<real>, cs: seq<real>, r: seq<real>)
    requires |b| == |r| == 2 * c && |sn| == |cs| == c
    requires forall i :: 0 <= i < c ==> r[i] == RotatedLow(b, c, sn, cs, i)
    requires forall i :: c <= i < 2 * c ==> r[i] == RotatedHigh(b, c, sn, cs, 2 * c - 1 - i)
    ensures r == RotationBlock(b, c, sn, cs)
  {
    hide LowOf, HighOf, RotateLow, RotateHigh;
    forall i | 0 <= i < 2 * c ensures r[i] == RotationBlock(b, c, sn, cs)[i] {
      if i < c {
        RotateAt(b[..c], b[c..], sn, cs, i);
      } else {
        var k := 2 * c - 1 - i;
        RotateAt(b[..c], b[c..], sn, cs, k);
        assert r[i] == RotateHigh(b[..c], b[c..], sn, cs)[c - 1 - k];
      }
    }
  }

  /** The first k slots from the left and from the right of the block at d hold rotated values. */
  ghost predicate RotatedUpTo(s: seq<real>, d: nat, b: seq<real>, c: nat, sn: seq<real>, cs: seq<real>, k: nat)
    requires |b| == 2 * c && |sn| == |cs| == c && d + 2 * c <= |s| && k <= c
  {
    forall i :: 0 <= i < k ==>
      s[d + i] == RotatedLow(b, c, sn, cs, i) && s[d + 2 * c - 1 - i] == RotatedHigh(b, c, sn, cs, i)
  }

  lemma RotatedOneMore(s: seq<real>, r: seq<real>, d: nat, b: seq<real>, c: nat, sn: seq<real>, cs: seq<real>, k: nat)
    requires |b| == 2 * c && |sn| == |cs| == c && d + 2 * c <= |s| == |r| && k < c
    requires RotatedUpTo(s, d, b, c, sn, cs, k)
    requires r == s[d + k := LowOf(b[k], b[c + k], sn[k], cs[k])][d + 2 * c - 1 - k := HighOf(b[k], b[c + k], sn[k], cs[k])]
    ensures RotatedUpTo(r, d, b, c, sn, cs, k + 1) && r[..d] == s[..d]
  {
    hide LowOf, HighOf;
  }

  lemma RotatedAll(s: seq<real>, d: nat, b: seq<real>, c: nat, sn: seq<real>, cs: seq<real>)
    requires |b| == 2 * c && |sn| == |cs| == c && d + 2 * c <= |s| && RotatedUpTo(s, d, b, c, sn, cs, c)
    ensures s[d..d + 2 * c] == RotationBlock(b, c, sn, cs)
  {
    hide RotatedLow, RotatedHigh, RotationBlock;
    var r := s[d..d + 2 * c];
    forall i | c <= i < 2 * c ensures r[i] == RotatedHigh(b, c, sn, cs, 2 * c - 1 - i) {
      assert s[d + 2 * c - 1 - (2 * c - 1 - i)] == r[i];
    }
    RotationBlockAt(b, c, sn, cs, r);
  }

  /** The inner loop of a rotation pass: the second index of the destination runs downwards. */
  method RotationBlockInto(src: array<real>, dst: array<real>, count2: nat, sinTable: seq<real>, cosTable: seq<real>,
                           t: nat, s1: nat, s2: nat, d1: nat, d2: nat)
    returns (tIdx: nat, s1Idx: nat, s2Idx: nat, d1Idx: nat, d2Idx: int)
    requires src != dst && src.Length == dst.Length && |sinTable| == |cosTable|
    requires s1 == d1 && s2 == s1 + count2 && d2 + 1 == d1 + 2 * count2
    requires d1 + 2 * count2 <= src.Length && t + count2 <= |sinTable|
    modifies dst
    ensures tIdx == t + count2 && s1Idx == s1 + count2 && s2Idx == s2 + count2
    ensures d1Idx == d1 + count2 && d2Idx == d2 - count2
    ensures dst[..d1] == old(dst[..d1])
    ensures dst[..][d1..d1 + 2 * count2]
         == RotationBlock(src[..][d1..d1 + 2 * count2], count2, sinTable[t..t + count2], cosTable[t..t + count2])
  {
    hide LowOf, HighOf, RotationBlock, RotatedUpTo;
    tIdx, s1Idx, s2Idx, d1Idx, d2Idx := t, s1, s2, d1, d2;
    ghost var block, before := src[..][d1..d1 + 2 * count2], dst[..d1];
    ghost var sn, cs := sinTable[t..t + count2], cosTable[t..t + count2];
    NoneRotated(dst[..], d1, block, count2, sn, cs);
    var k := 0;
    while k < count2
      invariant 0 <= k <= count2
      invariant tIdx == t + k && s1Idx == s1 + k && s2Idx == s2 + k && d1Idx == d1 + k && d2Idx == d2 - k
      invariant dst[..][..d1] == before
      invariant RotatedUpTo(dst[..], d1, block, count2, sn, cs, k)
    {
      ghost var s := dst[..];
      var a := src[s1Idx];
      s1Idx := s1Idx + 1;
      var b := src[s2Idx];
      s2Idx := s2Idx + 1;
      var sin, cos := sinTable[tIdx], cosTable[tIdx];
      tIdx := tIdx + 1;
      dst[d1Idx] := LowOf(a, b, sin, cos);
      d1Idx := d1Idx + 1;
      dst[d2Idx] := HighOf(a, b, sin, cos);
      d2Idx := d2Idx - 1;
      RotatedOneMore(s, dst[..], d1, block, count2, sn, cs, k);
      k := k + 1;
    }
    RotatedAll(dst[..], d1, block, count2, sn, cs);
  }

  lemma NoneRotated(s: seq<real>, d: nat, b: seq<real>, c: nat, sn: seq<real>, cs: seq<real>)
    requires |b| == 2 * c && |sn| == |cs| == c && d + 2 * c <= |s|
    ensures RotatedUpTo(s, d, b, c, sn, cs, 0)
  {
  }

  lemma RotationPassNone(s: seq<real>, c: nat, sn: seq<real>, cs: seq<real>)
    ensures RotationPass(s[..0], c, 0, sn[..0], cs[..0]) == []
  {
  }

  lemma RotationPassStep(s: seq<real>, c: nat, n: nat, m: nat, sn: seq<real>, cs: seq<real>, t: nat, r: seq<real>)
    requires m == Span(n, 2 * c) && m + 2 * c <= |s| == |r|
    requires |sn| == |cs| && t == Span(n, c) && t + c <= |sn|
    requires r[..m] == RotationPass(s[..m], c, n, sn[..t], cs[..t])
    requires r[m..m + 2 * c] == RotationBlock(s[m..m + 2 * c], c, sn[t..t + c], cs[t..t + c])
    ensures r[..m + 2 * c] == RotationPass(s[..m + 2 * c], c, n + 1, sn[..t + c], cs[..t + c])
  {
    hide RotationBlock;
    assert s[..m + 2 * c][..m] == s[..m] && s[..m + 2 * c][m..] == s[m..m + 2 * c];
    assert sn[..t + c][..t] == sn[..t] && sn[..t + c][t..] == sn[t..t + c];
    assert cs[..t + c][..t] == cs[..t] && cs[..t + c][t..] == cs[t..t + c];
    assert r[..m + 2 * c] == r[..m] + r[m..m + 2 * c];
  }

  /** One rotation pass, from src into dst. */
  method RotationPassInto(src: array<real>, dst: array<real>, count1: nat, count2: nat,
                          sinTable: seq<real>, cosTable: seq<real>)
    requires src != dst && src.Length == dst.Length == Span(count1, 2 * count2) && count2 > 0
    requires |sinTable| == |cosTable| == Span(count1, count2)
    modifies dst
    ensures dst[..] == RotationPass(src[..], count2, count1, sinTable, cosTable)
  {
    hide RotationBlock, RotationPass;
    RotationPassNone(src[..], count2, sinTable, cosTable);
    var tIdx, d1Idx, s1Idx, s2Idx := 0, 0, 0, count2;
    var d2Idx: int := count2 * 2 - 1;
    var j := 0;
    while j < count1
      invariant 0 <= j <= count1
      invariant d1Idx == s1Idx == Span(j, 2 * count2) <= src.Length && s2Idx == s1Idx + count2
      invariant d2Idx == d1Idx + 2 * count2 - 1
      invariant tIdx == Span(j, count2) <= |sinTable|
      invariant dst[..d1Idx] == RotationPass(src[..][..d1Idx], count2, j, sinTable[..tIdx], cosTable[..tIdx])
    {
      ghost var base, t := d1Idx, tIdx;
      SpanMonotone(j + 1, count1, 2 * count2);
      SpanMonotone(j + 1, count1, count2);
      tIdx, s1Idx, s2Idx, d1Idx, d2Idx :=
        RotationBlockInto(src, dst, count2, sinTable, cosTable, tIdx, s1Idx, s2Idx, d1Idx, d2Idx);
      s1Idx := s1Idx + count2;
      s2Idx := s2Idx + count2;
      d1Idx := d1Idx + count2;
      d2Idx := d2Idx + count2 * 3;
      j := j + 1;
      assert dst[..][..base] == dst[..base];
      RotationPassStep(src[..], count2, j - 1, base, sinTable, cosTable, t, dst[..]);
      assert dst[..][..d1Idx] == dst[..d1Idx];
    }
    assert src[..][..d1Idx] == src[..] && dst[..d1Idx] == dst[..];
    assert sinTable[..tIdx] == sinTable && cosTable[..tIdx] == cosTable;
  }

  /** The buffers a channel keeps from one subframe to the next. */
  class ChannelBuffers {
    const temp: array<real>
    const imdctPrevious: array<real>

    ghost predicate Valid()
    {
      temp.Length == imdctPrevious.Length == 128 && temp != imdctPrevious
    }

    constructor ()
      ensures Valid() && fresh(temp) && fresh(imdctPrevious)
      ensures imdctPrevious[..] == Silence()
    {
      temp := new real[128](_ => 0.0);
      imdctPrevious := new real[128](_ => 0.0);
    }

    /** Forget the carry of the file decoded before. */
    method DecodeReset()
      requires Valid()
      modifies imdctPrevious
      ensures imdctPrevious[..] == Silence()
    {
      for j := 0 to imdctPrevious.Length
        invariant forall i :: 0 <= i < j ==> imdctPrevious[i] == 0.0
      {
        imdctPrevious[j] := 0.0;
      }
    }

    /** All passes of the first network; seven swaps leave the result in temp. */
    method PreRotation(spectra: array<real>)
      requires Valid() && spectra.Length == 128 && spectra != temp && spectra != imdctPrevious
      modifies spectra, temp
      ensures temp[..] == Butterflies(old(spectra[..]), MDCT_BITS)
    {
      hide ButterflyPass;
      ghost var input := spectra[..];
      var count1, count2 := 1, HALF;
      assert Pow2(6) == HALF;
      var temp1, temp2 := spectra, temp;
      var i := 0;
      while i < MDCT_BITS
        invariant 0 <= i <= MDCT_BITS
        invariant temp1 == (if i % 2 == 0 then spectra else temp)
        invariant temp2 == (if i % 2 == 0 then temp else spectra)
        invariant count1 == Pow2(i) && count2 == (if i == MDCT_BITS then 0 else Pow2(6 - i))
        invariant temp1[..] == Butterflies(input, i)
      {
        PassShape(i);
        ButterflyPassInto(temp1, temp2, count1, count2);
        temp1, temp2 := temp2, temp1;
        HalveCount(i);
        count1 := count1 * 2;
        count2 := count2 / 2;
        i := i + 1;
      }
    }

    /** All passes of the second network; seven swaps bring the result back into spectra. */
    method Rotation(t: Tables, spectra: array<real>)
      requires Valid() && spectra.Length == 128 && spectra != temp && spectra != imdctPrevious
      requires t.WellFormed()
      modifies spectra, temp
      ensures spectra[..] == Rotations(t, old(temp[..]), MDCT_BITS)
    {
      hide RotationPass;
      ghost var input := temp[..];
      var count1, count2 := HALF, 1;
      assert Pow2(6) == HALF;
      var temp1, temp2 := temp, spectra;
      var i := 0;
      while i < MDCT_BITS
        invariant 0 <= i <= MDCT_BITS
        invariant temp1 == (if i % 2 == 0 then temp else spectra)
        invariant temp2 == (if i % 2 == 0 then spectra else temp)
        invariant count2 == Pow2(i) && count1 == (if i == MDCT_BITS then 0 else Pow2(6 - i))
        invariant temp1[..] == Rotations(t, input, i)
      {
        PassShape(i);
        RotationPassInto(temp1, temp2, count1, count2, t.sn[i], t.cs[i]);
        temp1, temp2 := temp2, temp1;
        HalveCount(i);
        count1 := count1 / 2;
        count2 := count2 * 2;
        i := i + 1;
      }
    }

    /** Output block and new carry, both from the transformed block and the old carry. */
    method OverlapAdd(t: Tables, dct: array<real>, wave: array<real>)
      requires Valid() && t.WellFormed() && dct.Length == wave.Length == 128
      requires wave != dct && wave != imdctPrevious && dct != imdctPrevious
      modifies wave, imdctPrevious
      ensures wave[..] == Wave(t, dct[..], old(imdctPrevious[..]))
      ensures imdctPrevious[..] == Saved(t, dct[..])
    {
      hide WaveAt, SavedAt;
      ghost var prev, d := imdctPrevious[..], dct[..];
      var w := t.window;
      for i := 0 to HALF
        invariant forall k :: i <= k < 64 || 64 + i <= k < 128 ==> imdctPrevious[k] == prev[k]
        invariant forall k :: 0 <= k < i || 64 <= k < 64 + i ==> wave[k] == WaveAt(w, d, prev, k)
        invariant forall k :: 0 <= k < i || 64 <= k < 64 + i ==> imdctPrevious[k] == SavedAt(w, d, k)
      {
        WindowedAt(w, d, prev, i);
        wave[i] := w[i] * dct[i + HALF] + imdctPrevious[i];
        wave[i + HALF] := w[i + HALF] * dct[SIZE - 1 - i] - imdctPrevious[i + HALF];
        imdctPrevious[i] := w[SIZE - 1 - i] * dct[HALF - i - 1];
        imdctPrevious[i + HALF] := w[HALF - i - 1] * dct[i];
      }
    }

    /** The whole transform of one subframe is one step of a run. */
    method ImdctTransform(t: Tables, spectra: array<real>, wave: array<real>)
      requires Valid() && t.WellFormed() && spectra.Length == wave.Length == 128
      requires spectra != temp && spectra != imdctPrevious
      requires wave != spectra && wave != temp && wave != imdctPrevious
      modifies spectra, temp, wave, imdctPrevious
      ensures var r := Run(t, old(imdctPrevious[..]), [old(spectra[..])]);
        wave[..] == r.waves[0] && imdctPrevious[..] == r.carry
    {
      PreRotation(spectra);
      Rotation(t, spectra);
      OverlapAdd(t, spectra, wave);
      RunLast(t, old(imdctPrevious[..]), [old(spectra[..])], 0);
      RunEmpty(t, old(imdctPrevious[..]));
      assert [old(spectra[..])][..0] == [];
      hide Run, Wave, Saved;
    }
  }

  lemma WindowedAt(w: seq<real>, d: Block, prev: Block, i: nat)
    requires |w| == 128 && i < 64
    ensures WaveAt(w, d, prev, i) == w[i] * d[i + 64] + prev[i]
    ensures WaveAt(w, d, prev, i + 64) == w[i + 64] * d[127 - i] - prev[i + 64]
    ensures SavedAt(w, d, i) == w[127 - i] * d[63 - i]
    ensures SavedAt(w, d, i + 64) == w[63 - i] * d[i]
  {
  }

  lemma HalveCount(i: nat)
    requires i < MDCT_BITS
    ensures Pow2(i + 1) == 2 * Pow2(i)
    ensures i < 6 ==> Pow2(6 - i) / 2 == Pow2(5 - i)
    ensures i == 6 ==> Pow2(6 - i) / 2 == 0
  {
  }
}

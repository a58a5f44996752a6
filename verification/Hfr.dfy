/**
  High-frequency reconstruction: the bands above the coded ones are scaled copies of the
  coded bands, mirrored at the start band.
 */
module Hfr {
  import opened Common
  import opened Energy

  /** Rounded-up quotient; no groups when b is zero. */
  function HeaderCeil2(a: nat, b: nat): nat
  {
    if b < 1 then 0 else a / b + if a % b != 0 then 1 else 0
  }

  /** Bands covered by the first g groups of b bands. */
  function Filled(g: nat, b: nat): nat
  {
    if g == 0 then 0 else Filled(g - 1, b) + b
  }

  lemma {:induction false} FilledIsProduct(g: nat, b: nat)
    ensures Filled(g, b) == g * b
  {
    if g > 0 {
      FilledIsProduct(g - 1, b);
      assert g * b == (g - 1) * b + b;
    }
  }

  lemma {:induction false} FilledMonotone(g: nat, h: nat, b: nat)
    requires g <= h
    ensures Filled(g, b) <= Filled(h, b)
    decreases h
  {
    if g < h {
      FilledMonotone(g, h - 1, b);
    }
  }

  lemma {:induction false} FilledGrows(g: nat, b: nat)
    requires b > 0
    ensures g <= Filled(g, b)
  {
    if g > 0 {
      FilledGrows(g - 1, b);
    }
  }

  lemma Split(a: nat, b: nat)
    requires b > 0
    ensures a == Filled(a / b, b) + a % b && 0 <= a % b < b
  {
    FilledIsProduct(a / b, b);
  }

  /** The groups cover a bands, and one group fewer would not. */
  lemma CeilCovers(a: nat, b: nat)
    requires b > 0
    ensures Filled(HeaderCeil2(a, b), b) >= a
    ensures HeaderCeil2(a, b) > 0 ==> Filled(HeaderCeil2(a, b) - 1, b) < a
    ensures HeaderCeil2(a, b) <= a
  {
    Split(a, b);
    FilledGrows(a / b, b);
  }

  lemma GroupOf(group: nat, b: nat, i: nat)
    requires i < b
    ensures (Filled(group, b) + i) / b == group
  {
    var x := Filled(group, b) + i;
    Split(x, b);
    var q := x / b;
    if q < group {
      FilledMonotone(q + 1, group, b);
    } else if q > group {
      FilledMonotone(group + 1, q, b);
    }
  }

  /** Where the copied bands start and end, and the groups that share a scale. */
  datatype Layout = Layout(start: nat, total: nat, bands: nat, groups: nat, version: nat)
  {
    predicate Valid()
    {
      start <= total <= 128 && groups == HeaderCeil2(total - start, bands)
    }

    /** How many bands the source walks down before it stays where it is. */
    function Walk(): nat
    {
      Filled(if version <= HCA_VERSION_200 then groups else groups / 2, bands)
    }

    /** The source of band start + k; below zero there is none. */
    function Low(k: nat): int
    {
      start - 1 - if k < Walk() then k else Walk()
    }

    /** An index leaves its array: no source for some band, or no band at all. */
    predicate Panics()
    {
      total == 0 || (total > 2 * start && Walk() >= start)
    }

    /** The slot of the scale for band start + k. */
    function ScaleSlot(k: nat): int
      requires bands > 0
    {
      128 - groups + k / bands
    }
  }

  lemma GroupsFit(l: Layout)
    requires l.Valid()
    ensures l.groups <= l.total - l.start
  {
    if l.bands > 0 {
      CeilCovers(l.total - l.start, l.bands);
    }
  }

  /** Scales of high-frequency groups never share a slot with a coded scale factor. */
  lemma ScaleSlotsAreFree(l: Layout, k: nat)
    requires l.Valid() && l.bands > 0 && k < l.total - l.start
    ensures l.start <= 128 - l.groups <= l.ScaleSlot(k) < 128
  {
    GroupsFit(l);
    CeilCovers(l.total - l.start, l.bands);
    Split(k, l.bands);
    if k / l.bands >= l.groups {
      FilledMonotone(l.groups, k / l.bands, l.bands);
      assert false;
    }
  }

  /** The k-th source lies below the start band, for every k exactly when nothing panics. */
  lemma {:induction false} LowInRange(l: Layout)
    requires l.Valid() && l.bands > 0
    ensures l.Panics() <==> l.total == 0 || exists k: nat :: k < l.total - l.start && l.Low(k) < 0
    ensures forall k: nat :: l.Low(k) < l.start
  {
    if l.total > 2 * l.start && l.Walk() >= l.start {
      assert l.Low(l.start) < 0;
    }
  }

  /** Up to version 2.00 the copy is a reflection, possible exactly when it is no longer than its source. */
  lemma LegacyReflects(l: Layout)
    requires l.Valid() && l.bands > 0 && l.version <= HCA_VERSION_200
    ensures forall k :: 0 <= k < l.total - l.start ==> l.Low(k) == l.start - 1 - k
    ensures l.Panics() <==> l.total == 0 || l.total > 2 * l.start
  {
    CeilCovers(l.total - l.start, l.bands);
  }

  /** The copy of a coded band into band start + k. */
  function Copy(l: Layout, table: seq<real>, sf: seq<nat>, spectrum: seq<real>, k: nat): real
    requires l.Valid() && l.bands > 0 && |table| == |sf| == |spectrum| == 128 && k < l.total - l.start
    requires 0 <= l.Low(k) && forall i :: 0 <= i < 128 ==> sf[i] < 64
  {
    ScaleSlotsAreFree(l, k);
    Times(table[sf[l.ScaleSlot(k)] + 63 - sf[l.Low(k)]], spectrum[l.Low(k)])
  }

  lemma NoPanic(l: Layout, k: nat)
    requires l.Valid() && l.bands > 0 && !l.Panics() && k < l.total - l.start
    ensures 0 <= l.Low(k) < l.start
  {
    LowInRange(l);
  }

  /** The reconstructed spectrum, computed from the original one alone. */
  function Mirrored(l: Layout, table: seq<real>, sf: seq<nat>, spectrum: seq<real>): (r: seq<real>)
    requires l.Valid() && l.bands > 0 && !l.Panics() && |table| == |sf| == |spectrum| == 128
    requires forall i :: 0 <= i < 128 ==> sf[i] < 64
    ensures |r| == 128
  {
    seq(128, j requires 0 <= j < 128 =>
      if j == l.total - 1 then 0.0
      else if j < l.start || j >= l.total then spectrum[j]
      else (NoPanic(l, j - l.start); Copy(l, table, sf, spectrum, j - l.start)))
  }

  method ReconstructHighFrequency(l: Layout, secondary: bool, table: seq<real>, sf: seq<nat>, spectra: array<real>)
    returns (ok: bool)
    requires (l.bands > 0 ==> l.Valid()) && |table| == |sf| == spectra.Length == 128
    requires forall i :: 0 <= i < 128 ==> sf[i] < 64
    modifies spectra
    ensures l.bands == 0 || secondary ==> ok && spectra[..] == old(spectra[..])
    ensures l.bands > 0 && !secondary ==> ok == !l.Panics()
    ensures l.bands > 0 && !secondary && ok ==> spectra[..] == Mirrored(l, table, sf, old(spectra[..]))
  {
    if l.bands == 0 {
      return true;
    }
    if secondary {
      return true;
    }
    GroupsFit(l);
    var highband: nat, lowband: nat := l.start, Lowered(l.start, 1);
    ghost var before := spectra[..];
    AtStart(l, table, sf, before, highband, lowband);
    hide *;
    ok := true;
    for group := 0 to l.groups
      invariant At(l, Filled(group, l.bands), highband, lowband)
      invariant CopiedUpTo(l, table, sf, before, spectra[..], highband)
    {
      ok, highband, lowband := CopyGroup(l, table, sf, spectra, before, group, highband, lowband);
      if !ok {
        return;
      }
    }
    AtEnd(l, table, sf, before, spectra[..], highband, lowband);
    ok := 0 < highband;
    if ok {
      spectra[highband - 1] := 0.0;
    }
  }

  /** The copies that share one scale. */
  method CopyGroup(l: Layout, table: seq<real>, sf: seq<nat>, spectra: array<real>, ghost before: seq<real>,
                   group: nat, high: nat, low: nat)
    returns (ok: bool, highband: nat, lowband: nat)
    requires l.Valid() && l.bands > 0 && group < l.groups <= 128
    requires |table| == |sf| == |before| == spectra.Length == 128 && forall i :: 0 <= i < 128 ==> sf[i] < 64
    requires At(l, Filled(group, l.bands), high, low) && CopiedUpTo(l, table, sf, before, spectra[..], high)
    modifies spectra
    ensures !ok ==> l.Panics()
    ensures ok ==> At(l, Filled(group + 1, l.bands), highband, lowband)
    ensures ok ==> CopiedUpTo(l, table, sf, before, spectra[..], highband)
  {
    highband, lowband := high, low;
    var i := 0;
    hide *;
    while i < l.bands
      invariant i <= l.bands
      invariant At(l, Filled(group, l.bands) + i, highband, lowband)
      invariant CopiedUpTo(l, table, sf, before, spectra[..], highband)
    {
      if highband >= l.total {
        break;
      }
      // An unsigned lowband is never negative; past zero it has wrapped and leaves the array.
      if lowband >= 128 {
        WrappedIsPanic(l, Filled(group, l.bands) + i, highband, lowband);
        return false, highband, lowband;
      }
      highband, lowband := CopyBand(l, table, sf, spectra, before, group, i, highband, lowband);
      i := i + 1;
    }
    AtNextGroup(l, group, i, highband, lowband);
    ok := true;
  }

  /** One band; the source moves down in the lower groups and stays in the upper ones. */
  method CopyBand(l: Layout, table: seq<real>, sf: seq<nat>, spectra: array<real>, ghost before: seq<real>,
                  group: nat, ghost i: nat, high: nat, low: nat)
    returns (highband: nat, lowband: nat)
    requires l.Valid() && i < l.bands && group < l.groups <= 128 && high < l.total && low < 128
    requires |table| == |sf| == |before| == spectra.Length == 128 && forall i :: 0 <= i < 128 ==> sf[i] < 64
    requires At(l, Filled(group, l.bands) + i, high, low) && CopiedUpTo(l, table, sf, before, spectra[..], high)
    modifies spectra
    ensures At(l, Filled(group, l.bands) + i + 1, highband, lowband)
    ensures CopiedUpTo(l, table, sf, before, spectra[..], highband)
  {
    AtUse(l, group, i, high, low);
    AtStep(l, group, i, high, low);
    hide *;
    var groupLimit := if l.version <= HCA_VERSION_200 then l.groups else l.groups / 2;
    var lowbandSub := if group >= groupLimit then 0 else 1;
    var scIndex: int := sf[128 - l.groups + group] + 63 - sf[low];
    if scIndex < 0 {
      scIndex := 0;
    }
    ghost var s := spectra[..];
    spectra[high] := Times(table[scIndex], spectra[low]);
    CopyOne(l, table, sf, before, s, spectra[..], high);
    highband, lowband := high + 1, Lowered(low, lowbandSub);
  }

  /** Unsigned subtraction. */
  function Lowered(x: nat, d: nat): (r: nat)
    requires x < WORD && d <= 1
    ensures r < WORD
  {
    (x - d) % WORD
  }

  lemma LoweredIs(x: nat, d: nat)
    requires x < WORD && d <= 1
    ensures Lowered(x, d) == if x < d then WORD - 1 else x - d
  {
    if x < d {
      assert (-1) % WORD == WORD - 1;
    }
  }

  /** The cursors after k steps of the two loops, or at the end of the copy. */
  ghost predicate At(l: Layout, k: nat, highband: nat, lowband: nat)
    requires l.Valid()
  {
    var done := if k < l.total - l.start then k else l.total - l.start;
    highband == l.start + done
    && -1 <= l.Low(done)
    && (if l.Low(done) < 0 then lowband == WORD - 1 else lowband == l.Low(done))
  }

  /** The bands below highband are copied, the others untouched. */
  ghost predicate CopiedUpTo(l: Layout, table: seq<real>, sf: seq<nat>, before: seq<real>, now: seq<real>, highband: nat)
    requires |table| == |sf| == |before| == |now| == 128
  {
    l.Valid() && l.bands > 0 && l.start <= highband <= l.total && (forall i :: 0 <= i < 128 ==> sf[i] < 64)
    && (forall j :: 0 <= j < l.start || highband <= j < 128 ==> now[j] == before[j])
    && forall k :: 0 <= k < highband - l.start ==>
         0 <= l.Low(k) < l.start && now[l.start + k] == Copy(l, table, sf, before, k)
  }

  lemma WrappedIsPanic(l: Layout, k: nat, highband: nat, lowband: nat)
    requires l.Valid() && l.bands > 0 && At(l, k, highband, lowband) && highband < l.total && lowband >= 128
    ensures l.Panics()
  {
    LowInRange(l);
    assert k < l.total - l.start && l.Low(k) < 0;
  }

  lemma CopyOne(l: Layout, table: seq<real>, sf: seq<nat>, before: seq<real>, s: seq<real>, after: seq<real>, highband: nat)
    requires |table| == |sf| == |before| == |s| == |after| == 128
    requires CopiedUpTo(l, table, sf, before, s, highband) && highband < l.total
    requires var k := highband - l.start;
      0 <= l.Low(k) < l.start && 0 <= l.ScaleSlot(k) < 128
      && after == s[highband := Times(table[sf[l.ScaleSlot(k)] + 63 - sf[l.Low(k)]], s[l.Low(k)])]
    ensures CopiedUpTo(l, table, sf, before, after, highband + 1)
  {
    hide Times, Filled;
  }

  lemma AtStart(l: Layout, table: seq<real>, sf: seq<nat>, before: seq<real>, highband: nat, lowband: nat)
    requires l.Valid() && l.bands > 0 && |table| == |sf| == |before| == 128 && forall i :: 0 <= i < 128 ==> sf[i] < 64
    requires highband == l.start && lowband == Lowered(l.start, 1)
    ensures At(l, Filled(0, l.bands), highband, lowband)
    ensures CopiedUpTo(l, table, sf, before, before, highband)
  {
    LoweredIs(l.start, 1);
  }

  /** The slots the inner loop reads are those of the closed form. */
  lemma AtUse(l: Layout, group: nat, i: nat, highband: nat, lowband: nat)
    requires l.Valid() && i < l.bands && At(l, Filled(group, l.bands) + i, highband, lowband)
    requires highband < l.total && lowband < 128
    ensures l.start <= highband < 128 && l.Low(highband - l.start) == lowband < l.start
    ensures l.groups <= 128 && group < l.groups && l.ScaleSlot(highband - l.start) == 128 - l.groups + group
  {
    GroupOf(group, l.bands, i);
    ScaleSlotsAreFree(l, Filled(group, l.bands) + i);
  }

  /** Leaving the inner loop early leaves it because every band is filled. */
  lemma AtNextGroup(l: Layout, group: nat, i: nat, highband: nat, lowband: nat)
    requires l.Valid() && i <= l.bands && At(l, Filled(group, l.bands) + i, highband, lowband)
    requires i == l.bands || highband >= l.total
    ensures At(l, Filled(group + 1, l.bands), highband, lowband)
  {
  }

  lemma AtEnd(l: Layout, table: seq<real>, sf: seq<nat>, before: seq<real>, now: seq<real>, highband: nat, lowband: nat)
    requires |table| == |sf| == |before| == |now| == 128
    requires l.Valid() && l.bands > 0 && At(l, Filled(l.groups, l.bands), highband, lowband)
    requires CopiedUpTo(l, table, sf, before, now, highband)
    ensures highband == l.total <= 128
    ensures (l.total == 0) == l.Panics()
    ensures l.total > 0 ==> now[l.total - 1 := 0.0] == Mirrored(l, table, sf, before)
  {
    CeilCovers(l.total - l.start, l.bands);
    LowInRange(l);
    hide Copy;
    if l.total > 0 {
      var r := now[l.total - 1 := 0.0];
      forall j | 0 <= j < 128
        ensures r[j] == Mirrored(l, table, sf, before)[j]
      {
        if l.start <= j < l.total {
          assert now[l.start + (j - l.start)] == Copy(l, table, sf, before, j - l.start);
        }
      }
    }
  }

  /** The source walks down by one in the lower groups and stays in the upper ones. */
  lemma AtStep(l: Layout, group: nat, i: nat, highband: nat, lowband: nat)
    requires l.Valid() && i < l.bands && At(l, Filled(group, l.bands) + i, highband, lowband)
    requires highband < l.total && lowband < 128
    ensures var limit := if l.version <= HCA_VERSION_200 then l.groups else l.groups / 2;
      var k := Filled(group, l.bands) + i;
      (k < l.Walk() <==> group < limit)
      && At(l, k + 1, highband + 1, Lowered(lowband, if group >= limit then 0 else 1))
  {
    var limit := if l.version <= HCA_VERSION_200 then l.groups else l.groups / 2;
    if group < limit {
      FilledMonotone(group + 1, limit, l.bands);
    } else {
      FilledMonotone(limit, group, l.bands);
    }
    LoweredIs(lowband, if group >= limit then 0 else 1);
    hide Filled, Lowered;
  }
}

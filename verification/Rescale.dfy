/**
  Copied bands are rescaled: with tables whose entries are powers of one step, a band copied into another
  keeps its shape relative to its own scale factor and takes on the scale of its new place.
 */
module Rescale {
  import opened Common
  import opened Energy
  import Frame
  import Header
  import Hfr
  import Resolution
  import Synthesis
  import Transform

  /** Entry 63 of the conversion table is one, and each further entry of both tables is one step more. */
  ghost predicate PowerTables(conversion: seq<real>, scaling: seq<real>, step: real)
  {
    |conversion| == 128 && |scaling| == 64 && conversion[63] == 1.0
    && (forall i :: 1 <= i < 127 ==> conversion[i + 1] == Times(step, conversion[i]))
    && forall i :: 0 <= i < 63 ==> scaling[i + 1] == Times(step, scaling[i])
  }

  /** The entry for a difference of scale factors is the ratio of their scales. */
  lemma {:induction false} TableRatio(conversion: seq<real>, scaling: seq<real>, step: real, a: nat, b: nat)
    requires PowerTables(conversion, scaling, step) && a < 64 && b < 64 && 1 <= 63 + a - b
    ensures Times(conversion[63 + a - b], scaling[b]) == scaling[a]
    decreases if a < b then b - a else a - b
  {
    if a > b {
      TableRatio(conversion, scaling, step, a - 1, b);
      Regroup(step, conversion[62 + a - b], scaling[b]);
    } else if a < b {
      TableRatio(conversion, scaling, step, a, b - 1);
      Regroup(step, conversion[63 + a - b], scaling[b - 1]);
      Swapped(step, conversion[63 + a - b], scaling[b - 1]);
    }
  }

  lemma Regroup(x: real, y: real, z: real)
    ensures Times(Times(x, y), z) == Times(x, Times(y, z))
  {
    assert (x * y) * z == x * (y * z);
  }

  lemma Swapped(x: real, y: real, z: real)
    ensures Times(Times(x, y), z) == Times(y, Times(x, z))
  {
    assert (x * y) * z == y * (x * z);
  }

  /** A high band in group g has the scale factor of that group. */
  lemma CopyRescales(l: Hfr.Layout, conversion: seq<real>, scaling: seq<real>, step: real, sf: seq<nat>, spectrum: seq<real>,
                     g: nat, i: nat)
    requires l.Valid() && i < l.bands && Hfr.Filled(g, l.bands) + i < l.total - l.start
    requires PowerTables(conversion, scaling, step) && |sf| == |spectrum| == 128 && forall j :: 0 <= j < 128 ==> sf[j] < 64
    requires 0 <= l.Low(Hfr.Filled(g, l.bands) + i)
    ensures g < l.groups <= 128
    ensures var k := Hfr.Filled(g, l.bands) + i;
      l.Low(k) < 128
      && (sf[128 - l.groups + g] > 0 ==>
            Times(scaling[sf[l.Low(k)]], Hfr.Copy(l, conversion, sf, spectrum, k))
            == Times(scaling[sf[128 - l.groups + g]], spectrum[l.Low(k)]))
  {
    var k := Hfr.Filled(g, l.bands) + i;
    Hfr.GroupOf(g, l.bands, i);
    Hfr.ScaleSlotsAreFree(l, k);
    hide Hfr.Filled, Hfr.Layout.Low, Hfr.HeaderCeil2, Times, PowerTables;
    var a, b, x := sf[128 - l.groups + g], sf[l.Low(k)], spectrum[l.Low(k)];
    assert PowerTables(conversion, scaling, step);
    if a > 0 {
      TableRatio(conversion, scaling, step, a, b);
      Ratio(scaling[b], conversion[63 + a - b], x, scaling[a]);
    }
  }

  lemma Ratio(s: real, c: real, x: real, t: real)
    requires Times(c, s) == t
    ensures Times(s, Times(c, x)) == Times(t, x)
  {
    assert s * (c * x) == (c * s) * x;
  }

  /** Substituted noise has the scale factor of its band, less one step. */
  lemma NoiseRescales(conversion: seq<real>, scaling: seq<real>, step: real, sf: seq<nat>, spectrum: seq<real>, band: nat,
                      source: nat)
    requires PowerTables(conversion, scaling, step) && |sf| == |spectrum| == 128 && forall j :: 0 <= j < 128 ==> sf[j] < 64
    requires band < 128 && source < 128 && sf[band] > 1
    ensures |conversion| == 128 && |scaling| == 64 && Resolution.ScaleIndexInRange(sf, band, source)
    ensures Times(step, Times(scaling[sf[source]], Resolution.Substitute(conversion, sf, spectrum, band, source)))
         == Times(scaling[sf[band]], spectrum[source])
  {
    var a, b, x := sf[band], sf[source], spectrum[source];
    TableRatio(conversion, scaling, step, a - 1, b);
    assert scaling[a] == Times(step, scaling[a - 1]);
    hide PowerTables, Times;
    Ratio(scaling[b], conversion[62 + a - b], x, scaling[a - 1]);
    Regroup(step, scaling[a - 1], x);
  }

  /**
    In a restored spectrum every high band but the last is a rescaled copy of the band its source now holds, noise
    included; the last one is zero, and bands outside are those of the noise step.
   */
  lemma RestoredRescales(h: Header.Params, conversion: seq<real>, scaling: seq<real>, step: real, s: Synthesis.Settings,
                         x: Transform.Block, random: nat, g: nat, i: nat)
    requires Synthesis.Restorable(h) && s.Valid() && h.bandsPerHfrGroup > 0 && !s.t.StereoSecondary?
    requires PowerTables(conversion, scaling, step) && i < h.bandsPerHfrGroup
    requires h.stereoBandCount + h.baseBandCount + Hfr.Filled(g, h.bandsPerHfrGroup) + i + 1 < h.totalBandCount
    ensures var l := Frame.LayoutOf(h);
      var r, k := Synthesis.Restored(h, conversion, s, x, random), Hfr.Filled(g, l.bands) + i;
      l.Valid() && g < l.groups <= 128 && 0 <= l.Low(k) < l.start && r[l.total - 1] == 0.0
      && (s.sf[128 - l.groups + g] > 0 ==>
            Times(scaling[s.sf[l.Low(k)]], r[l.start + k]) == Times(scaling[s.sf[128 - l.groups + g]], r[l.Low(k)]))
      && forall j :: (0 <= j < l.start || l.total <= j < 128) ==> r[j] == Synthesis.Noisy(h, conversion, s, x, random)[j]
  {
    Frame.LayoutValid(h);
    var l := Frame.LayoutOf(h);
    var k := Hfr.Filled(g, l.bands) + i;
    var noisy := Synthesis.Noisy(h, conversion, s, x, random);
    Hfr.NoPanic(l, k);
    CopyRescales(l, conversion, scaling, step, s.sf, noisy, g, i);
    hide Synthesis.Noisy, Hfr.Filled, Hfr.Layout.Low, Hfr.Layout.Panics, Hfr.Copy, PowerTables, Times,
      Header.Params.HfrGroupCount, Header.Params.Accepted;
    MirroredAt(l, conversion, s.sf, noisy, k);
    MirroredAt(l, conversion, s.sf, noisy, l.total - 1 - l.start);
  }

  lemma MirroredAt(l: Hfr.Layout, table: seq<real>, sf: seq<nat>, spectrum: seq<real>, k: nat)
    requires l.Valid() && l.bands > 0 && !l.Panics() && |table| == |sf| == |spectrum| == 128
    requires (forall i :: 0 <= i < 128 ==> sf[i] < 64) && l.start + k < l.total
    ensures 0 <= l.Low(k) < l.start
    ensures var r := Hfr.Mirrored(l, table, sf, spectrum);
      r[l.Low(k)] == spectrum[l.Low(k)]
      && r[l.start + k] == if l.start + k == l.total - 1 then 0.0 else Hfr.Copy(l, table, sf, spectrum, k)
  {
    Hfr.NoPanic(l, k);
    hide Hfr.Layout.Low, Hfr.Layout.Panics, Hfr.Copy;
  }

  /**
    The noise step copies rescaled resolved bands into the bands without resolution, one random number for each, when
    the header allows resolution zero and there are bands of both kinds; other bands stay.
   */
  lemma NoisyRescales(h: Header.Params, conversion: seq<real>, scaling: seq<real>, step: real, s: Synthesis.Settings,
                      x: Transform.Block, random: nat, b: nat)
    requires h.Accepted() && s.Valid() && PowerTables(conversion, scaling, step) && b < 128
    ensures var u, sources := Resolution.Unresolved(s.sf, s.res, s.n), Resolution.Resolved(s.sf, s.res, s.n);
      var filled := h.minResolution == 0 && u != [] && sources != [];
      var r := Synthesis.Noisy(h, conversion, s, x, random);
      Synthesis.RandomNext(h, s, random) == (if filled then Resolution.RandomAfter(random, |u|) else random)
      && (!(filled && b in u) ==> r[b] == x[b])
      && (filled && b in u ==>
            var source := Resolution.SourceBand(sources, random, Resolution.SlotIn(u, b));
            source in sources && source < 128
            && (s.sf[b] > 1 ==>
                  Times(step, Times(scaling[s.sf[source]], r[b])) == Times(scaling[s.sf[b]], r[source])))
  {
    var u, sources := Resolution.Unresolved(s.sf, s.res, s.n), Resolution.Resolved(s.sf, s.res, s.n);
    Resolution.BandLists(s.sf, s.res, s.n);
    hide Resolution.Unresolved, Resolution.Resolved, Resolution.PickSlot, Resolution.Substitute, PowerTables, Times,
      Resolution.ScaleIndexInRange, Resolution.Ascending, Header.Params.HfrGroupCount;
    if h.minResolution == 0 && u != [] && sources != [] && b in u {
      var source := Resolution.SourceBand(sources, random, Resolution.SlotIn(u, b));
      Resolution.SourceInRange(s.sf, s.res, s.n, random, b, Resolution.SlotIn(u, b));
      assert source in sources && source !in u;
      if s.sf[b] > 1 {
        NoiseRescales(conversion, scaling, step, s.sf, x, b, source);
      }
    }
  }

  /** From version 3 on the source walks down through the first half of the groups and then stays where it is. */
  lemma LaterGroups(l: Hfr.Layout, g: nat, i: nat)
    requires l.version > HCA_VERSION_200 && i < l.bands
    ensures var k := g * l.bands + i;
      l.Low(k) == l.start - 1 - if g < l.groups / 2 then k else l.groups / 2 * l.bands
  {
    var half := l.groups / 2;
    Hfr.FilledIsProduct(g, l.bands);
    Hfr.FilledIsProduct(half, l.bands);
    Hfr.FilledIsProduct(g + 1, l.bands);
    if g < half {
      Hfr.FilledMonotone(g + 1, half, l.bands);
    } else {
      Hfr.FilledMonotone(half, g, l.bands);
    }
  }
}

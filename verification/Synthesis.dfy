/**
  From coefficients to sound: dequantized spectra, the restoration of missing bands, joint
  stereo and the inverse transform of all channels, over whole frames.
 */
module Synthesis {
  import opened Channel
  import opened Energy
  import opened Frame
  import opened Transform
  import Bytes
  import Coefficients
  import Crc
  import Header
  import Hfr
  import Resolution

  // ---------- what one frame settles for a channel ----------

  datatype Settings = Settings(t: ChannelType, n: nat, sf: seq<nat>, intensity: seq<nat>, res: seq<nat>)
  {
    predicate Valid()
    {
      n <= 128 && |sf| == |res| == 128 && |intensity| == 8
      && (forall i :: 0 <= i < 128 ==> sf[i] < 64 && res[i] <= 15) && forall i :: 0 <= i < 8 ==> intensity[i] < 16
    }
  }

  predicate AllValid(h: Header.Params, ss: seq<Settings>)
  {
    |ss| == h.channels && forall i :: 0 <= i < |ss| ==> ss[i].Valid()
  }

  /** Type and coded bands from the header, the rest from the side information of the frame. */
  function SettingsOf(h: Header.Params, ath: seq<nat>, rule: Resolution.Rule, side: SideState, i: nat): (s: Settings)
    requires h.Accepted() && |ath| == 128 && rule.WellFormed() && side.Valid()
    ensures s.Valid()
  {
    var t := Header.TypeOf(h, i);
    var n := Header.CodedCount(h, t);
    Settings(t, n, side.scaleFactors, side.intensity, Resolution.Resolutions(rule, side.scaleFactors, ath, n))
  }

  function AllSettings(h: Header.Params, ath: seq<nat>, rule: Resolution.Rule, sides: seq<SideState>): (ss: seq<Settings>)
    requires h.Accepted() && |ath| == 128 && rule.WellFormed() && SidesShape(h, sides)
    ensures AllValid(h, ss)
  {
    seq(h.channels, i requires 0 <= i < h.channels => SettingsOf(h, ath, rule, sides[i], i))
  }

  // ---------- a new decoder ----------

  const DEFAULT_RANDOM: nat := 1

  function FreshSide(): (s: SideState)
    ensures s.Valid() && (forall i :: 0 <= i < 128 ==> s.scaleFactors[i] == 0) && forall i :: 0 <= i < 8 ==> s.intensity[i] == 0
  {
    SideState(seq(128, _ => 0), seq(8, _ => 0))
  }

  function FreshSides(h: Header.Params): (sides: seq<SideState>)
    ensures SidesShape(h, sides)
  {
    seq(h.channels, _ => FreshSide())
  }

  function SilentCarries(h: Header.Params): (cs: seq<Block>)
    ensures |cs| == h.channels && forall k :: 0 <= k < h.channels ==> cs[k] == Silence()
  {
    seq(h.channels, _ => Silence())
  }

  // ---------- dequantized spectra ----------

  function Gain(tables: Frame.Tables, s: Settings, k: nat): real
    requires tables.Valid() && s.Valid() && k < 128
  {
    Times(tables.scaling[s.sf[k]], tables.range[s.res[k]])
  }

  /** Coefficients times the gains of their bands, zero from the coded bands on. */
  function Dequantized(tables: Frame.Tables, s: Settings, values: seq<int>): Block
    requires tables.Valid() && s.Valid() && |values| == s.n
  {
    seq(128, k requires 0 <= k < 128 => if k < s.n then Coefficients.Scaled(Gain(tables, s, k), values[k]) else 0.0)
  }

  /** The spectrum of a channel in a subframe; silence where the bit reader panics. */
  function SpectrumAt(h: Header.Params, ath: seq<nat>, tables: Frame.Tables, rule: Resolution.Rule, sides: seq<SideState>,
                      data: seq<Bytes.byte>, bit: nat, subframe: nat, i: nat): Block
    requires h.Accepted() && SidesShape(h, sides) && i < h.channels && h.frameSize <= |data|
    requires rule.WellFormed() && |ath| == 128 && tables.Valid()
  {
    var s := SettingsOf(h, ath, rule, sides[i], i);
    var at := RunsEnd(h, ath, rule, sides, data, bit, subframe, i);
    if at.None? then Silence() else
      var run := Coefficients.DecodeRun(data, 8 * h.frameSize, at.value, s.res, s.n);
      if run.RunBroken? || |run.values| != s.n then Silence() else Dequantized(tables, s, run.values)
  }

  /** The spectra of all channels in one subframe. */
  function SpectraAt(h: Header.Params, ath: seq<nat>, tables: Frame.Tables, rule: Resolution.Rule, sides: seq<SideState>,
                     data: seq<Bytes.byte>, bit: nat, subframe: nat): (xs: seq<Block>)
    requires h.Accepted() && SidesShape(h, sides) && h.frameSize <= |data|
    requires rule.WellFormed() && |ath| == 128 && tables.Valid()
    ensures |xs| == h.channels
  {
    seq(h.channels, i requires 0 <= i < h.channels => SpectrumAt(h, ath, tables, rule, sides, data, bit, subframe, i))
  }

  // ---------- missing bands and joint stereo of one subframe ----------

  /** Headers whose high bands, if any, have a source. */
  predicate Restorable(h: Header.Params)
  {
    h.Accepted() && (h.bandsPerHfrGroup == 0 || h.BandsOrdered()) && !BadLayout(h)
  }

  datatype Restoration = Restoration(spectra: seq<Block>, random: nat)

  function Substitutes(h: Header.Params, s: Settings): bool
    requires s.Valid()
  {
    Resolution.Substitutes(h.minResolution, h.msStereo, s.t.StereoPrimary?, |Resolution.Unresolved(s.sf, s.res, s.n)|,
                           |Resolution.Resolved(s.sf, s.res, s.n)|)
  }

  /** Noise first. */
  function Noisy(h: Header.Params, table: seq<real>, s: Settings, x: Block, random: nat): Block
    requires s.Valid() && |table| == 128
  {
    if Substitutes(h, s) then Resolution.NoiseFilled(table, s.sf, s.res, s.n, x, random) else x
  }

  function RandomNext(h: Header.Params, s: Settings, random: nat): nat
    requires s.Valid()
  {
    if Substitutes(h, s) then Resolution.RandomAfter(random, |Resolution.Unresolved(s.sf, s.res, s.n)|) else random
  }

  /** Then the high bands; a secondary channel has none of its own. */
  function Restored(h: Header.Params, table: seq<real>, s: Settings, x: Block, random: nat): Block
    requires Restorable(h) && s.Valid() && |table| == 128
  {
    var noisy := Noisy(h, table, s, x, random);
    LayoutValid(h);
    if h.bandsPerHfrGroup == 0 || s.t.StereoSecondary? then noisy else Hfr.Mirrored(LayoutOf(h), table, s.sf, noisy)
  }

  /** The first k channels, which share one random state. */
  function RestoredUpTo(h: Header.Params, table: seq<real>, ss: seq<Settings>, xs: seq<Block>, random: nat, k: nat)
    : (r: Restoration)
    requires Restorable(h) && AllValid(h, ss) && |table| == 128 && |xs| == h.channels && k <= h.channels
    ensures |r.spectra| == k
  {
    if k == 0 then Restoration([], random) else
      var before := RestoredUpTo(h, table, ss, xs, random, k - 1);
      Restoration(before.spectra + [Restored(h, table, ss[k - 1], xs[k - 1], before.random)],
                  RandomNext(h, ss[k - 1], before.random))
  }

  function LeftShare(x: Block, ratio: real, base: nat, total: nat): Block
  {
    seq(128, b requires 0 <= b < 128 => if base <= b < total then Times(x[b], ratio) else x[b])
  }

  function RightShare(x: Block, y: Block, ratio: real, base: nat, total: nat): Block
  {
    seq(128, b requires 0 <= b < 128 => if base <= b < total then Times(x[b], 2.0 - ratio) else y[b])
  }

  /** On the stereo bands the two shares sum to twice the band. */
  lemma SharesSum(x: Block, y: Block, ratio: real, base: nat, total: nat, b: nat)
    requires base <= b < total <= 128
    ensures LeftShare(x, ratio, base, total)[b] + RightShare(x, y, ratio, base, total)[b] == 2.0 * x[b]
  {
  }

  /** The first channel gets its ratio of a stereo band and the second the rest of two; other bands stay. */
  lemma SharesAre(x: Block, y: Block, ratio: real, base: nat, total: nat, b: nat)
    requires b < 128
    ensures base <= b < total ==> LeftShare(x, ratio, base, total)[b] == ratio * x[b]
    ensures base <= b < total ==> RightShare(x, y, ratio, base, total)[b] == (2.0 - ratio) * x[b]
    ensures !(base <= b < total) ==> LeftShare(x, ratio, base, total)[b] == x[b] && RightShare(x, y, ratio, base, total)[b] == y[b]
  {
  }

  /** The pair that ends at position k shares the stereo bands of its first channel. */
  function Shared(h: Header.Params, ratios: seq<real>, ss: seq<Settings>, subframe: nat, ys: seq<Block>, k: nat)
    : (zs: seq<Block>)
    requires AllValid(h, ss) && |ratios| == 16 && subframe < SUBFRAMES && |ys| == h.channels && 0 < k < h.channels
    ensures |zs| == h.channels
  {
    if !ss[k - 1].t.StereoPrimary? then ys else
      var ratio := ratios[ss[k].intensity[subframe]];
      ys[k - 1 := LeftShare(ys[k - 1], ratio, h.baseBandCount, h.totalBandCount)]
        [k := RightShare(ys[k - 1], ys[k], ratio, h.baseBandCount, h.totalBandCount)]
  }

  /** All pairs that end at or below position k. */
  function Stereo(h: Header.Params, ratios: seq<real>, ss: seq<Settings>, subframe: nat, ys: seq<Block>, k: nat)
    : (zs: seq<Block>)
    requires AllValid(h, ss) && |ratios| == 16 && subframe < SUBFRAMES && |ys| == h.channels && k < h.channels
    ensures |zs| == h.channels
  {
    if k == 0 then ys else Shared(h, ratios, ss, subframe, Stereo(h, ratios, ss, subframe, ys, k - 1), k)
  }

  /** All of step 3 of one subframe. */
  function SubframeSpectra(h: Header.Params, tables: Frame.Tables, ss: seq<Settings>, subframe: nat, xs: seq<Block>,
                           random: nat): (r: Restoration)
    requires Restorable(h) && AllValid(h, ss) && tables.Valid() && subframe < SUBFRAMES && |xs| == h.channels
    ensures |r.spectra| == h.channels
  {
    var r := RestoredUpTo(h, tables.conversion, ss, xs, random, h.channels);
    if h.stereoBandCount == 0 then r
    else r.(spectra := Stereo(h, tables.ratio, ss, subframe, r.spectra, h.channels - 1))
  }

  // One step of these functions at a time.

  lemma RestorableIs(h: Header.Params)
    ensures Restorable(h) <==> h.Accepted() && (h.bandsPerHfrGroup == 0 || h.BandsOrdered()) && !BadLayout(h)
  {
  }

  lemma RestoredStart(h: Header.Params, table: seq<real>, ss: seq<Settings>, xs: seq<Block>, random: nat)
    requires Restorable(h) && AllValid(h, ss) && |table| == 128 && |xs| == h.channels
    ensures RestoredUpTo(h, table, ss, xs, random, 0) == Restoration([], random)
  {
  }

  lemma RestoredNext(h: Header.Params, table: seq<real>, ss: seq<Settings>, xs: seq<Block>, random: nat, k: nat)
    requires Restorable(h) && AllValid(h, ss) && |table| == 128 && |xs| == h.channels && k < h.channels
    ensures k < |ss| && ss[k].Valid()
    ensures var before, after := RestoredUpTo(h, table, ss, xs, random, k), RestoredUpTo(h, table, ss, xs, random, k + 1);
      after.random == RandomNext(h, ss[k], before.random)
      && |before.spectra| == k && |after.spectra| == k + 1 && (before.spectra + xs[k..])[k] == xs[k]
      && (before.spectra + xs[k..])[k := Restored(h, table, ss[k], xs[k], before.random)] == after.spectra + xs[k + 1..]
  {
    hide Restored, RandomNext;
  }

  lemma SharedIs(h: Header.Params, ratios: seq<real>, ss: seq<Settings>, subframe: nat, ys: seq<Block>, k: nat)
    requires AllValid(h, ss) && |ratios| == 16 && subframe < SUBFRAMES && |ys| == h.channels && 0 < k < h.channels
    ensures ss[k].Valid() && subframe < |ss[k].intensity| && ss[k].intensity[subframe] < 16
    ensures !ss[k - 1].t.StereoPrimary? ==> Shared(h, ratios, ss, subframe, ys, k) == ys
    ensures ss[k - 1].t.StereoPrimary? ==>
      var ratio := ratios[ss[k].intensity[subframe]];
      Shared(h, ratios, ss, subframe, ys, k)
      == ys[k - 1 := LeftShare(ys[k - 1], ratio, h.baseBandCount, h.totalBandCount)]
           [k := RightShare(ys[k - 1], ys[k], ratio, h.baseBandCount, h.totalBandCount)]
  {
    hide LeftShare, RightShare;
  }

  lemma StereoStart(h: Header.Params, ratios: seq<real>, ss: seq<Settings>, subframe: nat, ys: seq<Block>)
    requires AllValid(h, ss) && |ratios| == 16 && subframe < SUBFRAMES && |ys| == h.channels && 0 < h.channels
    ensures Stereo(h, ratios, ss, subframe, ys, 0) == ys
  {
  }

  lemma StereoNext(h: Header.Params, ratios: seq<real>, ss: seq<Settings>, subframe: nat, ys: seq<Block>, k: nat)
    requires AllValid(h, ss) && |ratios| == 16 && subframe < SUBFRAMES && |ys| == h.channels && 0 < k < h.channels
    ensures var before := Stereo(h, ratios, ss, subframe, ys, k - 1);
      |before| == h.channels && Stereo(h, ratios, ss, subframe, ys, k) == Shared(h, ratios, ss, subframe, before, k)
  {
    hide Shared;
  }

  /** Primary channels have a secondary one behind them. */
  predicate Paired(ss: seq<Settings>)
  {
    forall q :: 0 <= q < |ss| && ss[q].t.StereoPrimary? ==> q + 1 < |ss| && ss[q + 1].t.StereoSecondary?
  }

  /** Band b of channel p after the pairs up to position k, in terms of the bands before: the first of a pair has its ratio of
      its band, the second the rest of two, and all else is as it was. */
  predicate StereoSays(h: Header.Params, ratios: seq<real>, ss: seq<Settings>, subframe: nat, ys: seq<Block>, z: real,
                       k: nat, p: nat, b: nat)
    requires AllValid(h, ss) && |ratios| == 16 && subframe < SUBFRAMES && |ys| == h.channels && p < h.channels && b < 128
  {
    var shared := h.baseBandCount <= b < h.totalBandCount;
    z == if shared && p < k && p + 1 < h.channels && ss[p].t.StereoPrimary? then
           ratios[ss[p + 1].intensity[subframe]] * ys[p][b]
         else if shared && 0 < p <= k && ss[p - 1].t.StereoPrimary? then
           (2.0 - ratios[ss[p].intensity[subframe]]) * ys[p - 1][b]
         else ys[p][b]
  }

  lemma PairedAt(ss: seq<Settings>, p: nat)
    requires Paired(ss) && p < |ss|
    ensures ss[p].t.StereoPrimary? ==> p + 1 < |ss| && !ss[p + 1].t.StereoPrimary?
    ensures p > 0 && ss[p - 1].t.StereoPrimary? ==> !ss[p].t.StereoPrimary?
  {
  }

  /** In the end every pair shares the stereo bands its first channel had, by the intensity of its second; all other channels keep theirs. */
  lemma {:induction false} StereoAt(h: Header.Params, ratios: seq<real>, ss: seq<Settings>, subframe: nat, ys: seq<Block>,
                                    k: nat, p: nat, b: nat)
    requires AllValid(h, ss) && |ratios| == 16 && subframe < SUBFRAMES && |ys| == h.channels && k < h.channels && Paired(ss)
    requires p < h.channels && b < 128
    ensures StereoSays(h, ratios, ss, subframe, ys, Stereo(h, ratios, ss, subframe, ys, k)[p][b], k, p, b)
  {
    hide Paired, Stereo, Settings.Valid;
    PairedAt(ss, p);
    if k == 0 {
      StereoStart(h, ratios, ss, subframe, ys);
    } else {
      StereoAt(h, ratios, ss, subframe, ys, k - 1, p, b);
      StereoAt(h, ratios, ss, subframe, ys, k - 1, k - 1, b);
      PairedAt(ss, k - 1);
      StereoNext(h, ratios, ss, subframe, ys, k);
      SharedAt(h, ratios, ss, subframe, Stereo(h, ratios, ss, subframe, ys, k - 1), k, p, b);
    }
  }

  lemma SharedAt(h: Header.Params, ratios: seq<real>, ss: seq<Settings>, subframe: nat, ys: seq<Block>, k: nat, p: nat, b: nat)
    requires AllValid(h, ss) && |ratios| == 16 && subframe < SUBFRAMES && |ys| == h.channels && 0 < k < h.channels
    requires p < h.channels && b < 128
    ensures ss[k].Valid() && subframe < |ss[k].intensity| && ss[k].intensity[subframe] < 16
    ensures var shared := h.baseBandCount <= b < h.totalBandCount && ss[k - 1].t.StereoPrimary?;
      var ratio := ratios[ss[k].intensity[subframe]];
      Shared(h, ratios, ss, subframe, ys, k)[p][b]
      == if shared && p == k - 1 then ratio * ys[k - 1][b] else if shared && p == k then (2.0 - ratio) * ys[k - 1][b] else ys[p][b]
  {
    SharedIs(h, ratios, ss, subframe, ys, k);
    var ratio := ratios[ss[k].intensity[subframe]];
    SharesAre(ys[k - 1], ys[k], ratio, h.baseBandCount, h.totalBandCount, b);
    hide Shared, LeftShare, RightShare, Settings.Valid;
  }

  // ---------- whole frames ----------

  datatype Restorations = Restorations(spectra: seq<seq<Block>>, random: nat)

  predicate Rows(h: Header.Params, xss: seq<seq<Block>>) { forall s :: 0 <= s < |xss| ==> |xss[s]| == h.channels }

  /** The spectra of the first k subframes as the inverse transform gets them. */
  function FrameSpectra(h: Header.Params, tables: Frame.Tables, ss: seq<Settings>, xss: seq<seq<Block>>, random: nat, k: nat)
    : (r: Restorations)
    requires Restorable(h) && AllValid(h, ss) && tables.Valid() && Rows(h, xss) && k <= |xss| <= SUBFRAMES
    ensures |r.spectra| == k && Rows(h, r.spectra)
  {
    if k == 0 then Restorations([], random) else
      var before := FrameSpectra(h, tables, ss, xss, random, k - 1);
      var last := SubframeSpectra(h, tables, ss, k - 1, xss[k - 1], before.random);
      Restorations(before.spectra + [last.spectra], last.random)
  }

  /** The blocks of one channel, subframe after subframe. */
  function Column(yss: seq<seq<Block>>, i: nat): (c: seq<Block>)
    ensures |c| == |yss|
  {
    seq(|yss|, s requires 0 <= s < |yss| => if i < |yss[s]| then yss[s][i] else Silence())
  }

  lemma SubframeParts(h: Header.Params, tables: Frame.Tables, ss: seq<Settings>, subframe: nat, xs: seq<Block>, random: nat)
    requires Restorable(h) && AllValid(h, ss) && tables.Valid() && subframe < SUBFRAMES && |xs| == h.channels
    ensures h.channels > 0 && |tables.conversion| == 128 && |tables.ratio| == 16
    ensures var n, r := SubframeSpectra(h, tables, ss, subframe, xs, random),
                        RestoredUpTo(h, tables.conversion, ss, xs, random, h.channels);
      n.random == r.random && |r.spectra| == h.channels
      && n.spectra == if h.stereoBandCount == 0 then r.spectra else Stereo(h, tables.ratio, ss, subframe, r.spectra, h.channels - 1)
  {
    hide Stereo, RestoredUpTo;
  }

  /** The same of a whole subframe: what its bands are in terms of the restored ones. */
  lemma SubframeStereo(h: Header.Params, tables: Frame.Tables, ss: seq<Settings>, subframe: nat, xs: seq<Block>, random: nat,
                       p: nat, b: nat)
    requires Restorable(h) && AllValid(h, ss) && tables.Valid() && subframe < SUBFRAMES && |xs| == h.channels
    requires Paired(ss) && (h.stereoBandCount == 0 ==> forall q :: 0 <= q < |ss| ==> !ss[q].t.StereoPrimary?)
    requires p < h.channels && b < 128
    ensures var ys := RestoredUpTo(h, tables.conversion, ss, xs, random, h.channels).spectra;
      |ys| == h.channels
      && StereoSays(h, tables.ratio, ss, subframe, ys, SubframeSpectra(h, tables, ss, subframe, xs, random).spectra[p][b],
                    h.channels - 1, p, b)
  {
    var ys := RestoredUpTo(h, tables.conversion, ss, xs, random, h.channels).spectra;
    StereoAt(h, tables.ratio, ss, subframe, ys, h.channels - 1, p, b);
    hide RestoredUpTo, Stereo, Restorable, Settings.Valid, Paired;
  }

  lemma FrameStart(h: Header.Params, tables: Frame.Tables, ss: seq<Settings>, xss: seq<seq<Block>>, random: nat)
    requires Restorable(h) && AllValid(h, ss) && tables.Valid() && Rows(h, xss) && |xss| <= SUBFRAMES
    ensures FrameSpectra(h, tables, ss, xss, random, 0) == Restorations([], random)
  {
  }

  lemma FrameNext(h: Header.Params, tables: Frame.Tables, ss: seq<Settings>, xss: seq<seq<Block>>, random: nat, k: nat)
    requires Restorable(h) && AllValid(h, ss) && tables.Valid() && Rows(h, xss) && k < |xss| <= SUBFRAMES
    ensures |xss[k]| == h.channels
    ensures var before := FrameSpectra(h, tables, ss, xss, random, k);
      var last := SubframeSpectra(h, tables, ss, k, xss[k], before.random);
      |before.spectra| == k
      && FrameSpectra(h, tables, ss, xss, random, k + 1) == Restorations(before.spectra + [last.spectra], last.random)
  {
    hide SubframeSpectra;
  }

  /** What an accepted frame hands to the restoration. */
  datatype Input = Input(settings: seq<Settings>, spectra: seq<seq<Block>>)

  function InputOf(h: Header.Params, ath: seq<nat>, tables: Frame.Tables, d: seq<Bytes.byte>, sides: seq<SideState>)
    : (f: Input)
    requires h.Accepted() && SidesShape(h, sides) && |ath| == 128 && h.frameSize <= |d| && tables.Valid()
    requires UnpackedOf(h, ath, d, sides).Accepted?
    ensures AllValid(h, f.settings) && |f.spectra| == SUBFRAMES && Rows(h, f.spectra)
  {
    RuleFits(h, d);
    var rule := RuleOf(h, d).value;
    var c := SidesAfter(h, d, 32, sides, h.channels);
    Input(AllSettings(h, ath, rule, c.sides),
          seq(SUBFRAMES, s requires 0 <= s < SUBFRAMES => SpectraAt(h, ath, tables, rule, c.sides, d, c.end, s)))
  }

  lemma InputParts(h: Header.Params, ath: seq<nat>, tables: Frame.Tables, d: seq<Bytes.byte>, sides: seq<SideState>)
    requires h.Accepted() && SidesShape(h, sides) && |ath| == 128 && h.frameSize <= |d| && tables.Valid()
    requires UnpackedOf(h, ath, d, sides).Accepted?
    ensures RuleOf(h, d).Some? && RuleOf(h, d).value.WellFormed()
    ensures var rule, c := RuleOf(h, d).value, SidesAfter(h, d, 32, sides, h.channels);
      c.Chain? && SidesShape(h, c.sides)
      && var f := InputOf(h, ath, tables, d, sides);
         f.settings == AllSettings(h, ath, rule, c.sides) && |f.spectra| == SUBFRAMES
         && forall s :: 0 <= s < SUBFRAMES ==> f.spectra[s] == SpectraAt(h, ath, tables, rule, c.sides, d, c.end, s)
  {
    RuleFits(h, d);
    hide RuleOf, SidesAfter, RunsEnd, AllSettings, SpectraAt;
  }

  // ---------- runs of frames ----------

  /** What a decoder is made with. */
  datatype Setup = Setup(h: Header.Params, ath: seq<nat>, tables: Frame.Tables, cipher: seq<Bytes.byte>)
  {
    predicate Valid() { h.Accepted() && |ath| == 128 && tables.Valid() && |cipher| == 256 }
  }

  /** What one frame leaves to the next, besides the carries of the inverse transform. */
  datatype State = State(sides: seq<SideState>, random: nat)

  function OutcomeIn(u: Setup, data: seq<Bytes.byte>, st: State): Outcome
    requires u.Valid() && SidesShape(u.h, st.sides)
  {
    FrameOutcome(u.h, u.ath, u.cipher, data, st.sides)
  }

  lemma AcceptedInput(u: Setup, data: seq<Bytes.byte>, st: State)
    requires u.Valid() && SidesShape(u.h, st.sides) && OutcomeIn(u, data, st).Accepted?
    ensures u.h.frameSize <= |data| && Restorable(u.h)
    ensures UnpackedOf(u.h, u.ath, Decrypted(u.cipher, data, u.h.frameSize), st.sides) == OutcomeIn(u, data, st)
  {
    AcceptedOrdered(u.h, u.ath, u.cipher, data, st.sides);
    hide BadLayout, UnpackedOf, Decrypted, FieldAt;
  }

  /** All spectra of an accepted frame, and the random state after it. */
  function FrameOutput(u: Setup, data: seq<Bytes.byte>, st: State): (r: Restorations)
    requires u.Valid() && SidesShape(u.h, st.sides) && OutcomeIn(u, data, st).Accepted?
    ensures |r.spectra| == SUBFRAMES && Rows(u.h, r.spectra)
  {
    AcceptedInput(u, data, st);
    var f := InputOf(u.h, u.ath, u.tables, Decrypted(u.cipher, data, u.h.frameSize), st.sides);
    FrameSpectra(u.h, u.tables, f.settings, f.spectra, st.random, SUBFRAMES)
  }

  function NextState(u: Setup, data: seq<Bytes.byte>, st: State): (r: State)
    requires u.Valid() && SidesShape(u.h, st.sides)
    ensures SidesShape(u.h, r.sides)
  {
    State(NextSides(u.h, u.ath, u.cipher, data, st.sides),
          if OutcomeIn(u, data, st).Accepted? then FrameOutput(u, data, st).random else st.random)
  }

  /** What a frame brings to the inverse transform of channel i: eight blocks, or nothing. */
  function FrameBlocks(u: Setup, data: seq<Bytes.byte>, st: State, i: nat): seq<Block>
    requires u.Valid() && SidesShape(u.h, st.sides) && i < u.h.channels
  {
    if OutcomeIn(u, data, st).Accepted? then Column(FrameOutput(u, data, st).spectra, i) else []
  }

  /** The same for frames one after the other, up to the first that breaks off. */
  function RunBlocks(u: Setup, frames: seq<seq<Bytes.byte>>, st: State, i: nat): seq<Block>
    requires u.Valid() && SidesShape(u.h, st.sides) && i < u.h.channels
  {
    if frames == [] || OutcomeIn(u, frames[0], st).BrokenOff? then [] else
      FrameBlocks(u, frames[0], st, i) + RunBlocks(u, frames[1..], NextState(u, frames[0], st), i)
  }

  function RunState(u: Setup, frames: seq<seq<Bytes.byte>>, st: State): (r: State)
    requires u.Valid() && SidesShape(u.h, st.sides)
    ensures SidesShape(u.h, r.sides)
  {
    if frames == [] then st else RunState(u, frames[1..], NextState(u, frames[0], st))
  }

  lemma TurnedAway(u: Setup, data: seq<Bytes.byte>, st: State)
    requires u.Valid() && SidesShape(u.h, st.sides)
    requires var o := OutcomeIn(u, data, st); o.BadParams? || o.BadSync? || o.BadChecksum?
    ensures NextState(u, data, st) == st && forall i :: 0 <= i < u.h.channels ==> FrameBlocks(u, data, st, i) == []
  {
    NextCases(u.h, u.ath, u.cipher, data, st.sides);
    hide OutcomeOf, NextSides, BadLayout;
  }

  /** A frame that the checks turn away leaves no trace in the sound: it might as well not be there. */
  lemma {:induction false} BadFramesAreSilent(u: Setup, before: seq<seq<Bytes.byte>>, bad: seq<Bytes.byte>,
                                              after: seq<seq<Bytes.byte>>, st: State, i: nat)
    requires u.Valid() && SidesShape(u.h, st.sides) && i < u.h.channels
    requires var o := OutcomeIn(u, bad, RunState(u, before, st)); o.BadParams? || o.BadSync? || o.BadChecksum?
    ensures RunBlocks(u, before + [bad] + after, st, i) == RunBlocks(u, before + after, st, i)
    ensures RunState(u, before + [bad] + after, st) == RunState(u, before + after, st)
  {
    hide NextState, FrameBlocks, OutcomeIn;
    if before == [] {
      assert before + [bad] + after == [bad] + after && before + after == after;
      assert ([bad] + after)[1..] == after;
      TurnedAway(u, bad, st);
    } else {
      assert (before + after)[1..] == before[1..] + after;
      assert (before + [bad] + after)[1..] == before[1..] + [bad] + after;
      BadFramesAreSilent(u, before[1..], bad, after, NextState(u, before[0], st), i);
    }
  }

  lemma StateParts(u: Setup, data: seq<Bytes.byte>, st: State)
    requires u.Valid() && SidesShape(u.h, st.sides)
    ensures u.h.Accepted() && |u.ath| == 128 && u.tables.Valid() && |u.cipher| == 256
    ensures var o := OutcomeOf(u.h, u.ath, u.cipher, data, st.sides);
      OutcomeIn(u, data, st) == (if o.Accepted? && BadLayout(u.h) then BrokenOff else o)
      && (o.Accepted? ==> u.h.BandsOrdered() || u.h.bandsPerHfrGroup == 0)
    ensures NextState(u, data, st).sides == NextSides(u.h, u.ath, u.cipher, data, st.sides)
    ensures SidesShape(u.h, NextState(u, data, st).sides)
    ensures !OutcomeIn(u, data, st).Accepted? ==> NextState(u, data, st).random == st.random
  {
    AcceptedOrdered(u.h, u.ath, u.cipher, data, st.sides);
    hide OutcomeOf, NextSides, BadLayout, FrameOutput;
  }

  lemma OutputParts(u: Setup, data: seq<Bytes.byte>, st: State)
    requires u.Valid() && SidesShape(u.h, st.sides)
    requires OutcomeOf(u.h, u.ath, u.cipher, data, st.sides).Accepted?
    ensures u.h.frameSize <= |data|
    ensures var d := Decrypted(u.cipher, data, u.h.frameSize);
      UnpackedOf(u.h, u.ath, d, st.sides).Accepted?
      && var f := InputOf(u.h, u.ath, u.tables, d, st.sides);
         AllValid(u.h, f.settings) && |f.settings| == u.h.channels && |f.spectra| == SUBFRAMES && Rows(u.h, f.spectra)
         && (OutcomeIn(u, data, st).Accepted? ==>
               Restorable(u.h) && FrameOutput(u, data, st) == FrameSpectra(u.h, u.tables, f.settings, f.spectra, st.random, SUBFRAMES)
               && NextState(u, data, st).random == FrameOutput(u, data, st).random
               && |FrameOutput(u, data, st).spectra| == SUBFRAMES)
  {
    if OutcomeIn(u, data, st).Accepted? {
      AcceptedInput(u, data, st);
    }
    hide BadLayout, UnpackedOf, Decrypted, FieldAt, InputOf, FrameSpectra, NextSides, Crc.BitCrc;
  }

  /** The carries after a frame. */
  function NextCarries(t: Transform.Tables, cs: seq<Block>, yss: seq<seq<Block>>): (next: seq<Block>)
    requires t.WellFormed()
    ensures |next| == |cs| && forall k :: 0 <= k < |cs| ==> next[k] == Run(t, cs[k], Column(yss, k)).carry
  {
    seq(|cs|, k requires 0 <= k < |cs| => Run(t, cs[k], Column(yss, k)).carry)
  }

  /** The waves of a frame. */
  function NextWaves(t: Transform.Tables, cs: seq<Block>, yss: seq<seq<Block>>): (w: seq<seq<Block>>)
    requires t.WellFormed()
    ensures |w| == |cs| && forall k :: 0 <= k < |cs| ==> w[k] == Run(t, cs[k], Column(yss, k)).waves && |w[k]| == |yss|
  {
    seq(|cs|, k requires 0 <= k < |cs| => Run(t, cs[k], Column(yss, k)).waves)
  }

  function MoreBlocks(u: Setup, data: seq<Bytes.byte>, st: State, done: seq<seq<Block>>): (more: seq<seq<Block>>)
    requires u.Valid() && SidesShape(u.h, st.sides) && OutcomeIn(u, data, st).Accepted? && |done| == u.h.channels
    ensures |more| == u.h.channels
    ensures forall k :: 0 <= k < u.h.channels ==> more[k] == done[k] + Column(FrameOutput(u, data, st).spectra, k)
  {
    seq(u.h.channels, k requires 0 <= k < u.h.channels => done[k] + Column(FrameOutput(u, data, st).spectra, k))
  }

  // ---------- a run as it goes on ----------

  /** Waves and carries so far are those of the blocks so far, which the rest of the frames completes. */
  ghost predicate Tally(u: Setup, t: Transform.Tables, frames: seq<seq<Bytes.byte>>, start: State, cs: seq<Block>,
                        rest: seq<seq<Bytes.byte>>, st: State, now: seq<Block>, done: seq<seq<Block>>,
                        waves: seq<seq<seq<real>>>)
  {
    u.Valid() && t.WellFormed() && SidesShape(u.h, start.sides) && SidesShape(u.h, st.sides)
    && |cs| == |now| == |done| == |waves| == u.h.channels
    && RunState(u, rest, st) == RunState(u, frames, start)
    && forall k :: 0 <= k < u.h.channels ==>
         var r := Run(t, cs[k], done[k]);
         waves[k] == r.waves && now[k] == r.carry && done[k] + RunBlocks(u, rest, st, k) == RunBlocks(u, frames, start, k)
  }

  /** The waves of a whole run. */
  ghost predicate WavesOf(u: Setup, t: Transform.Tables, frames: seq<seq<Bytes.byte>>, start: State, cs: seq<Block>,
                          waves: seq<seq<seq<real>>>)
  {
    u.Valid() && t.WellFormed() && SidesShape(u.h, start.sides) && |cs| == |waves| == u.h.channels
    && forall k :: 0 <= k < u.h.channels ==> waves[k] == Run(t, cs[k], RunBlocks(u, frames, start, k)).waves
  }

  function NoBlocks(u: Setup): (b: seq<seq<Block>>)
    ensures |b| == u.h.channels
  {
    seq(u.h.channels, _ => [])
  }

  lemma TallyStart(u: Setup, t: Transform.Tables, frames: seq<seq<Bytes.byte>>, start: State, cs: seq<Block>,
                   waves: seq<seq<seq<real>>>)
    requires u.Valid() && t.WellFormed() && SidesShape(u.h, start.sides) && |cs| == |waves| == u.h.channels
    requires forall k :: 0 <= k < u.h.channels ==> waves[k] == []
    ensures Tally(u, t, frames, start, cs, frames, start, cs, NoBlocks(u), waves)
  {
    hide RunBlocks, RunState, Run;
    forall k | 0 <= k < u.h.channels
      ensures Run(t, cs[k], NoBlocks(u)[k]) == RunResult([], cs[k])
      ensures NoBlocks(u)[k] + RunBlocks(u, frames, start, k) == RunBlocks(u, frames, start, k)
    {
      RunEmpty(t, cs[k]);
    }
  }

  /** A frame that is not accepted adds nothing. */
  lemma TallySkip(u: Setup, t: Transform.Tables, frames: seq<seq<Bytes.byte>>, start: State, cs: seq<Block>,
                  rest: seq<seq<Bytes.byte>>, st: State, now: seq<Block>, done: seq<seq<Block>>, waves: seq<seq<seq<real>>>)
    requires Tally(u, t, frames, start, cs, rest, st, now, done, waves) && |rest| > 0
    requires var o := OutcomeIn(u, rest[0], st); !o.Accepted? && !o.BrokenOff?
    ensures Tally(u, t, frames, start, cs, rest[1..], NextState(u, rest[0], st), now, done, waves)
  {
    hide OutcomeIn, Run, NextState;
    forall k | 0 <= k < u.h.channels
      ensures RunBlocks(u, rest, st, k) == RunBlocks(u, rest[1..], NextState(u, rest[0], st), k)
    {
      assert FrameBlocks(u, rest[0], st, k) == [];
    }
  }

  /** An accepted frame adds its blocks. */
  lemma TallyAccepted(u: Setup, t: Transform.Tables, frames: seq<seq<Bytes.byte>>, start: State, cs: seq<Block>,
                      rest: seq<seq<Bytes.byte>>, st: State, now: seq<Block>, done: seq<seq<Block>>,
                      waves: seq<seq<seq<real>>>, next: seq<Block>, more: seq<seq<Block>>, waves': seq<seq<seq<real>>>)
    requires Tally(u, t, frames, start, cs, rest, st, now, done, waves) && |rest| > 0
    requires OutcomeIn(u, rest[0], st).Accepted? && |next| == |more| == |waves'| == u.h.channels
    requires forall k :: 0 <= k < u.h.channels ==>
      var blocks := Column(FrameOutput(u, rest[0], st).spectra, k);
      more[k] == done[k] + blocks && next[k] == Run(t, now[k], blocks).carry
      && waves'[k] == waves[k] + Run(t, now[k], blocks).waves
    ensures Tally(u, t, frames, start, cs, rest[1..], NextState(u, rest[0], st), next, more, waves')
  {
    hide OutcomeIn, Run, NextState, FrameOutput, Column;
    forall k | 0 <= k < u.h.channels
      ensures Run(t, cs[k], more[k]).waves == waves'[k] && Run(t, cs[k], more[k]).carry == next[k]
      ensures done[k] + RunBlocks(u, rest, st, k) == more[k] + RunBlocks(u, rest[1..], NextState(u, rest[0], st), k)
    {
      RunJoin(t, cs[k], done[k], Column(FrameOutput(u, rest[0], st).spectra, k));
      assert FrameBlocks(u, rest[0], st, k) == Column(FrameOutput(u, rest[0], st).spectra, k);
    }
  }

  /** The run ends with its last frame, or with one that breaks off. */
  lemma TallyEnds(u: Setup, t: Transform.Tables, frames: seq<seq<Bytes.byte>>, start: State, cs: seq<Block>,
                  rest: seq<seq<Bytes.byte>>, st: State, now: seq<Block>, done: seq<seq<Block>>, waves: seq<seq<seq<real>>>)
    requires Tally(u, t, frames, start, cs, rest, st, now, done, waves)
    requires |rest| > 0 ==> OutcomeIn(u, rest[0], st).BrokenOff?
    ensures WavesOf(u, t, frames, start, cs, waves)
    ensures rest == [] ==> st == RunState(u, frames, start)
    ensures forall k :: 0 <= k < u.h.channels ==> now[k] == Run(t, cs[k], RunBlocks(u, frames, start, k)).carry
  {
    hide OutcomeIn, Run;
    forall k | 0 <= k < u.h.channels
      ensures done[k] == RunBlocks(u, frames, start, k)
    {
      assert RunBlocks(u, rest, st, k) == [];
      assert done[k] + [] == done[k];
    }
  }

  /** From a silent decoder with ideal tables: all sound plus the last carry has the energy of all decoded spectra. */
  lemma SoundEnergy(u: Setup, t: Transform.Tables, frames: seq<seq<Bytes.byte>>, start: State, cs: seq<Block>,
                    waves: seq<seq<seq<real>>>, k: nat)
    requires WavesOf(u, t, frames, start, cs, waves) && t.Ideal() && k < u.h.channels && cs[k] == Silence()
    ensures var blocks := RunBlocks(u, frames, start, k);
      |waves[k]| == |blocks| && (forall j :: 0 <= j < |waves[k]| ==> |waves[k][j]| == 128)
      && TotalEnergy(waves[k]) + SumSq(Run(t, cs[k], blocks).carry) == TotalEnergy(blocks)
  {
    RunEnergyFromReset(t, RunBlocks(u, frames, start, k));
    hide RunBlocks, Run, TotalEnergy;
  }

  // ---------- samples in the order they are handed out ----------

  /** Silence where a channel has no such block. */
  function SampleAt(waves: seq<seq<Block>>, k: nat, i: nat, j: nat): real
    requires k < |waves| && j < 128
  {
    if i < |waves[k]| then waves[k][i][j] else 0.0
  }

  /** One sample of every channel. */
  function Instant(waves: seq<seq<Block>>, i: nat, j: nat): (s: seq<real>)
    requires j < 128
    ensures |s| == |waves|
  {
    seq(|waves|, k requires 0 <= k < |waves| => SampleAt(waves, k, i, j))
  }

  /** The first j samples of block i of every channel. */
  function BlockSamples(waves: seq<seq<Block>>, i: nat, j: nat): (s: seq<real>)
    requires j <= 128
    ensures |s| == |waves| * j
  {
    if j == 0 then [] else
      assert |waves| * j == |waves| * (j - 1) + |waves|;
      BlockSamples(waves, i, j - 1) + Instant(waves, i, j - 1)
  }

  /** The first n blocks of every channel. */
  function Interleave(waves: seq<seq<Block>>, n: nat): (s: seq<real>)
    ensures |s| == |waves| * 128 * n
  {
    if n == 0 then [] else
      assert |waves| * 128 * n == |waves| * 128 * (n - 1) + |waves| * 128;
      Interleave(waves, n - 1) + BlockSamples(waves, n - 1, 128)
  }

  /** Sample j of block i of channel k stands behind all earlier instants, in the place of its channel. */
  lemma {:induction false} InterleaveAt(waves: seq<seq<Block>>, n: nat, i: nat, j: nat, k: nat)
    requires i < n && j < 128 && k < |waves| && i < |waves[k]|
    ensures var at := (128 * i + j) * |waves| + k;
      at < |Interleave(waves, n)| && Interleave(waves, n)[at] == waves[k][i][j]
  {
    hide BlockSamples, SampleAt, Instant;
    var c := |waves|;
    var at := (128 * i + j) * c + k;
    InstantAt(c, 128, j, k);
    BlockPlaces(c, n, i, j, k);
    if i < n - 1 {
      InterleaveAt(waves, n - 1, i, j, k);
    } else {
      BlockAt(waves, i, 128, j, k);
    }
  }

  /** Places inside blocks and of whole blocks. */
  lemma BlockPlaces(c: nat, n: nat, i: nat, j: nat, k: nat)
    requires i < n && j < 128 && k < c
    ensures (128 * i + j) * c + k < c * 128 * (i + 1) <= c * 128 * n
    ensures (128 * i + j) * c + k == c * 128 * i + (j * c + k)
  {
    assert (128 * i + j) * c == c * 128 * i + j * c;
    InstantAt(c, 128, j, k);
    assert c * 128 * (i + 1) == c * 128 * i + c * 128;
    Grows(c * 128, i + 1, n);
  }

  lemma Grows(c: nat, i: nat, n: nat)
    requires i <= n
    ensures c * i <= c * n
  {
    assert c * n == c * i + c * (n - i);
  }

  lemma InstantAt(c: nat, n: nat, j: nat, k: nat)
    requires j < n && k < c
    ensures j * c + k < c * (j + 1) <= c * n
  {
    assert c * (j + 1) == j * c + c;
    Grows(c, j + 1, n);
  }

  lemma {:induction false} BlockAt(waves: seq<seq<Block>>, i: nat, n: nat, j: nat, k: nat)
    requires j < n <= 128 && k < |waves| && i < |waves[k]|
    ensures var at := j * |waves| + k; at < |BlockSamples(waves, i, n)| && BlockSamples(waves, i, n)[at] == waves[k][i][j]
  {
    InstantAt(|waves|, n, j, k);
    if j < n - 1 {
      BlockAt(waves, i, n - 1, j, k);
    } else {
      assert |waves| * (n - 1) == j * |waves|;
      assert Instant(waves, i, j)[k] == waves[k][i][j];
    }
  }

  /** The blocks of every channel one behind the other. */
  function Behind(waves: seq<seq<Block>>, more: seq<seq<Block>>): (r: seq<seq<Block>>)
    requires |waves| == |more|
    ensures |r| == |waves|
  {
    seq(|waves|, k requires 0 <= k < |waves| => waves[k] + more[k])
  }

  lemma {:induction false} BlockBehind(waves: seq<seq<Block>>, more: seq<seq<Block>>, n: nat, i: nat, j: nat)
    requires |waves| == |more| && j <= 128 && forall k :: 0 <= k < |waves| ==> |waves[k]| == n
    ensures BlockSamples(Behind(waves, more), n + i, j) == BlockSamples(more, i, j)
  {
    if j > 0 {
      BlockBehind(waves, more, n, i, j - 1);
      assert Instant(Behind(waves, more), n + i, j - 1) == Instant(more, i, j - 1);
    }
  }

  lemma {:induction false} BlockBefore(waves: seq<seq<Block>>, more: seq<seq<Block>>, n: nat, i: nat, j: nat)
    requires |waves| == |more| && j <= 128 && i < n && forall k :: 0 <= k < |waves| ==> |waves[k]| == n
    ensures BlockSamples(Behind(waves, more), i, j) == BlockSamples(waves, i, j)
  {
    if j > 0 {
      BlockBefore(waves, more, n, i, j - 1);
      assert Instant(Behind(waves, more), i, j - 1) == Instant(waves, i, j - 1);
    }
  }

  lemma {:induction false} InterleaveBefore(waves: seq<seq<Block>>, more: seq<seq<Block>>, n: nat, m: nat)
    requires |waves| == |more| && m <= n && forall k :: 0 <= k < |waves| ==> |waves[k]| == n
    ensures Interleave(Behind(waves, more), m) == Interleave(waves, m)
  {
    hide BlockSamples, Behind;
    if m > 0 {
      InterleaveBefore(waves, more, n, m - 1);
      BlockBefore(waves, more, n, m - 1, 128);
    }
  }

  /** Handing out samples block by block hands out the samples of all blocks. */
  lemma {:induction false} InterleaveBehind(waves: seq<seq<Block>>, more: seq<seq<Block>>, n: nat, m: nat)
    requires |waves| == |more| && forall k :: 0 <= k < |waves| ==> |waves[k]| == n
    ensures Interleave(Behind(waves, more), n + m) == Interleave(waves, n) + Interleave(more, m)
    decreases m
  {
    hide BlockSamples, Behind;
    if m == 0 {
      InterleaveBefore(waves, more, n, n);
      assert Interleave(waves, n) + Interleave(more, 0) == Interleave(waves, n);
    } else {
      InterleaveBehind(waves, more, n, m - 1);
      BlockBehind(waves, more, n, m - 1, 128);
    }
  }

  // ---------- runs of accepted frames ----------

  /** Every frame of the run is decoded to its end. */
  predicate AllDecoded(u: Setup, frames: seq<seq<Bytes.byte>>, st: State)
    requires u.Valid() && SidesShape(u.h, st.sides)
  {
    frames == [] || (OutcomeIn(u, frames[0], st).Accepted? && AllDecoded(u, frames[1..], NextState(u, frames[0], st)))
  }

  /** One more frame at the end of a run. */
  lemma {:induction false} RunSnoc(u: Setup, frames: seq<seq<Bytes.byte>>, last: seq<Bytes.byte>, st: State, i: nat)
    requires u.Valid() && SidesShape(u.h, st.sides) && i < u.h.channels
    ensures RunState(u, frames + [last], st) == NextState(u, last, RunState(u, frames, st))
    ensures AllDecoded(u, frames + [last], st)
      <==> AllDecoded(u, frames, st) && OutcomeIn(u, last, RunState(u, frames, st)).Accepted?
    ensures AllDecoded(u, frames + [last], st) ==>
      RunBlocks(u, frames + [last], st, i) == RunBlocks(u, frames, st, i) + FrameBlocks(u, last, RunState(u, frames, st), i)
  {
    hide NextState, FrameBlocks, OutcomeIn;
    if frames == [] {
      assert frames + [last] == [last] && [last][1..] == [];
      assert RunState(u, [], NextState(u, last, st)) == NextState(u, last, st);
      assert AllDecoded(u, [], NextState(u, last, st)) && RunBlocks(u, [], NextState(u, last, st), i) == [];
    } else {
      assert (frames + [last])[1..] == frames[1..] + [last];
      RunSnoc(u, frames[1..], last, NextState(u, frames[0], st), i);
    }
  }
}

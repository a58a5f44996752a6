/**
  Writing whole frames: the noise level, the side information of every channel and all coefficients
  of eight subframes, encrypted and with a checksum. The decoder reads back exactly what was written.
 */
module FrameWriter {
  import opened BitReader
  import opened Bytes
  import opened Channel
  import opened Common
  import opened Frame
  import opened SideWriter
  import opened Streams
  import Cipher
  import Coefficients
  import Crc
  import Header
  import Resolution
  import Synthesis

  // ---------- side information of all channels ----------

  predicate PlanFor(h: Header.Params, p: ChannelPlan, i: nat)
    requires h.Accepted()
  {
    var t := Header.TypeOf(h, i);
    Writable(p, t, Header.CodedCount(h, t), h.HfrGroupCount(), h.version)
  }

  predicate AllPlanned(h: Header.Params, ps: seq<ChannelPlan>)
    requires h.Accepted()
  {
    |ps| == h.channels && forall i :: 0 <= i < |ps| ==> PlanFor(h, ps[i], i)
  }

  function BitsFor(h: Header.Params, p: ChannelPlan, i: nat): seq<bool>
    requires h.Accepted() && PlanFor(h, p, i)
  {
    var t := Header.TypeOf(h, i);
    SideBits(p, t, Header.CodedCount(h, t), h.HfrGroupCount(), h.version)
  }

  /** What the channel has after the frame. */
  function SideThen(h: Header.Params, p: ChannelPlan, i: nat, before: SideState): (s: SideState)
    requires h.Accepted() && PlanFor(h, p, i) && |before.scaleFactors| == 128
    ensures |s.scaleFactors| == 128
  {
    var t := Header.TypeOf(h, i);
    SideState(ScalesThen(p, t, Header.CodedCount(h, t), h.HfrGroupCount(), h.version, before.scaleFactors),
              LevelsThen(p, t, before.intensity))
  }

  /** The side information of the first k channels, one after the other. */
  function ChainBits(h: Header.Params, ps: seq<ChannelPlan>, k: nat): seq<bool>
    requires h.Accepted() && AllPlanned(h, ps) && k <= h.channels
  {
    if k == 0 then [] else ChainBits(h, ps, k - 1) + BitsFor(h, ps[k - 1], k - 1)
  }

  function SidesThen(h: Header.Params, ps: seq<ChannelPlan>, sides: seq<SideState>, k: nat): (r: seq<SideState>)
    requires h.Accepted() && AllPlanned(h, ps) && SidesShape(h, sides) && k <= h.channels
    ensures |r| == h.channels
  {
    seq(h.channels, i requires 0 <= i < h.channels => if i < k then SideThen(h, ps[i], i, sides[i]) else sides[i])
  }

  lemma OneReadsBack(h: Header.Params, d: seq<byte>, bit: nat, sides: seq<SideState>, p: ChannelPlan, i: nat)
    requires h.Accepted() && SidesShape(h, sides) && i < h.channels && h.frameSize <= |d| && PlanFor(h, p, i)
    requires Ahead(d, 8 * h.frameSize, bit, BitsFor(h, p, i))
    ensures sides[i].Valid()
    ensures OneMore(h, d, bit, sides, i) == Chain(sides[i := SideThen(h, p, i, sides[i])], bit + |BitsFor(h, p, i)|)
  {
    hide Ahead, SideBits, ScalesThen, LevelsThen, Writable, SideAfter, Header.TypeOf, Header.CodedCount,
      Header.Params.HfrGroupCount, Header.Params.Accepted, Below;
    var t := Header.TypeOf(h, i);
    SideReadsBack(d, 8 * h.frameSize, bit, p, t, Header.CodedCount(h, t), h.HfrGroupCount(), h.version,
                  sides[i].scaleFactors, sides[i].intensity);
  }

  lemma {:induction false} ChainReadsBack(h: Header.Params, d: seq<byte>, sides: seq<SideState>, ps: seq<ChannelPlan>, k: nat)
    requires h.Accepted() && SidesShape(h, sides) && AllPlanned(h, ps) && k <= h.channels && h.frameSize <= |d|
    requires Ahead(d, 8 * h.frameSize, 32, ChainBits(h, ps, k))
    ensures SidesAfter(h, d, 32, sides, k) == Chain(SidesThen(h, ps, sides, k), 32 + |ChainBits(h, ps, k)|)
  {
    hide *;
    if k == 0 {
      ChainStart(h, ps, sides);
      NoSides(h, d, sides);
    } else {
      var before, i := SidesThen(h, ps, sides, k - 1), k - 1;
      PlansAt(h, ps, sides, i);
      ChainNext(h, ps, ps[i], sides, i);
      AheadParts(d, 8 * h.frameSize, 32, ChainBits(h, ps, i), BitsFor(h, ps[i], i));
      ChainReadsBack(h, d, sides, ps, i);
      SidesNext(h, d, sides, k);
      OneReadsBack(h, d, 32 + |ChainBits(h, ps, i)|, before, ps[i], i);
    }
  }

  lemma ChainStart(h: Header.Params, ps: seq<ChannelPlan>, sides: seq<SideState>)
    requires h.Accepted() && SidesShape(h, sides) && AllPlanned(h, ps)
    ensures ChainBits(h, ps, 0) == [] && SidesThen(h, ps, sides, 0) == sides
  {
    hide PlanFor, SideThen, Header.Params.Accepted, Below;
  }

  lemma PlansAt(h: Header.Params, ps: seq<ChannelPlan>, sides: seq<SideState>, i: nat)
    requires h.Accepted() && SidesShape(h, sides) && AllPlanned(h, ps) && i < h.channels
    ensures |ps| == h.channels && |sides| == h.channels && PlanFor(h, ps[i], i) && |sides[i].scaleFactors| == 128
  {
    hide PlanFor, Header.Params.Accepted, Below;
  }

  lemma ChainNext(h: Header.Params, ps: seq<ChannelPlan>, p: ChannelPlan, sides: seq<SideState>, k: nat)
    requires h.Accepted() && SidesShape(h, sides) && AllPlanned(h, ps) && k < h.channels
    requires |ps| == h.channels && ps[k] == p && PlanFor(h, p, k) && |sides| == h.channels && |sides[k].scaleFactors| == 128
    ensures ChainBits(h, ps, k + 1) == ChainBits(h, ps, k) + BitsFor(h, p, k)
    ensures var before := SidesThen(h, ps, sides, k);
      before[k] == sides[k] && SidesThen(h, ps, sides, k + 1) == before[k := SideThen(h, p, k, sides[k])]
  {
    hide PlanFor, BitsFor, SideThen, Header.Params.Accepted, Below;
  }

  // ---------- the coefficients of all subframes ----------

  /** The resolutions of the coded bands. */
  function CodedRes(h: Header.Params, ath: seq<nat>, rule: Resolution.Rule, sf: seq<nat>, i: nat): (rs: seq<nat>)
    requires h.Accepted() && rule.WellFormed() && |sf| == |ath| == 128
    ensures |rs| == Header.CodedCount(h, Header.TypeOf(h, i))
  {
    var n := Header.CodedCount(h, Header.TypeOf(h, i));
    Resolution.Resolutions(rule, sf, ath, n)[..n]
  }

  /** Values for every subframe and channel that the resolutions can express. */
  predicate ValuesFit(h: Header.Params, ath: seq<nat>, rule: Resolution.Rule, sides: seq<SideState>,
                      values: seq<seq<seq<int>>>)
    requires h.Accepted() && rule.WellFormed() && |ath| == 128
  {
    |values| == SUBFRAMES && |sides| == h.channels
    && (forall i :: 0 <= i < |sides| ==> |sides[i].scaleFactors| == 128)
    && (forall s :: 0 <= s < SUBFRAMES ==> |values[s]| == h.channels)
    && forall s, i :: 0 <= s < SUBFRAMES && 0 <= i < h.channels ==>
         Coefficients.RunRepresentable(CodedRes(h, ath, rule, sides[i].scaleFactors, i), values[s][i])
  }

  function RunFor(h: Header.Params, ath: seq<nat>, rule: Resolution.Rule, sides: seq<SideState>, values: seq<seq<seq<int>>>,
                  s: nat, i: nat): seq<bool>
    requires h.Accepted() && rule.WellFormed() && |ath| == 128 && ValuesFit(h, ath, rule, sides, values)
    requires s < SUBFRAMES && i < h.channels
  {
    var rs := CodedRes(h, ath, rule, sides[i].scaleFactors, i);
    Coefficients.EncodeRun(rs, values[s][i], |rs|)
  }

  /** All runs before channel i of subframe s. */
  function RunBits(h: Header.Params, ath: seq<nat>, rule: Resolution.Rule, sides: seq<SideState>, values: seq<seq<seq<int>>>,
                   s: nat, i: nat): seq<bool>
    requires h.Accepted() && rule.WellFormed() && |ath| == 128 && ValuesFit(h, ath, rule, sides, values)
    requires (s < SUBFRAMES && i <= h.channels) || (s == SUBFRAMES && i == 0)
    decreases s, i
  {
    if i > 0 then RunBits(h, ath, rule, sides, values, s, i - 1) + RunFor(h, ath, rule, sides, values, s, i - 1)
    else if s > 0 then RunBits(h, ath, rule, sides, values, s - 1, h.channels) else []
  }

  lemma RunBitsNext(h: Header.Params, ath: seq<nat>, rule: Resolution.Rule, sides: seq<SideState>, values: seq<seq<seq<int>>>,
                    s: nat, i: nat)
    requires h.Accepted() && rule.WellFormed() && |ath| == 128 && ValuesFit(h, ath, rule, sides, values)
    requires s < SUBFRAMES && i <= h.channels
    ensures i < h.channels ==>
      RunBits(h, ath, rule, sides, values, s, i + 1)
      == RunBits(h, ath, rule, sides, values, s, i) + RunFor(h, ath, rule, sides, values, s, i)
    ensures i == h.channels ==> RunBits(h, ath, rule, sides, values, s + 1, 0) == RunBits(h, ath, rule, sides, values, s, i)
    ensures RunBits(h, ath, rule, sides, values, 0, 0) == []
  {
    hide RunFor, ValuesFit, Header.Params.Accepted;
  }

  /** What is written early stands in front of everything. */
  lemma {:induction false} RunBitsGrow(h: Header.Params, ath: seq<nat>, rule: Resolution.Rule, sides: seq<SideState>,
                                       values: seq<seq<seq<int>>>, s: nat, i: nat)
    requires h.Accepted() && rule.WellFormed() && |ath| == 128 && ValuesFit(h, ath, rule, sides, values)
    requires (s < SUBFRAMES && i <= h.channels) || (s == SUBFRAMES && i == 0)
    ensures RunBits(h, ath, rule, sides, values, s, i) <= RunBits(h, ath, rule, sides, values, SUBFRAMES, 0)
    decreases SUBFRAMES - s, h.channels - i
  {
    hide RunBits, RunFor, ValuesFit, Header.Params.Accepted;
    if s < SUBFRAMES {
      RunBitsNext(h, ath, rule, sides, values, s, i);
      if i < h.channels {
        RunBitsGrow(h, ath, rule, sides, values, s, i + 1);
      } else {
        RunBitsGrow(h, ath, rule, sides, values, s + 1, 0);
      }
    }
  }

  lemma AheadStart(d: seq<byte>, size: nat, pos: nat, part: seq<bool>, bits: seq<bool>)
    requires Ahead(d, size, pos, bits) && part <= bits
    ensures Ahead(d, size, pos, part)
  {
    assert bits == part + bits[|part|..];
    AheadParts(d, size, pos, part, bits[|part|..]);
  }

  /** Only the resolutions read count. */
  lemma {:induction false} RunOfPrefix(d: seq<byte>, size: nat, bit: nat, rs: seq<nat>, n: nat, k: nat)
    requires size <= 8 * |d| && Coefficients.Resolutions(rs) && k <= n <= |rs|
    ensures Coefficients.DecodeRun(d, size, bit, rs[..n], k) == Coefficients.DecodeRun(d, size, bit, rs, k)
  {
    hide Coefficients.DecodeOne, Coefficients.Append;
    if k > 0 {
      RunOfPrefix(d, size, bit, rs, n, k - 1);
    }
  }

  /** The run of one channel in one subframe. */
  lemma OneRunReadsBack(h: Header.Params, ath: seq<nat>, rule: Resolution.Rule, sides: seq<SideState>,
                        values: seq<seq<seq<int>>>, d: seq<byte>, bit: nat, s: nat, i: nat)
    requires h.Accepted() && rule.WellFormed() && |ath| == 128 && ValuesFit(h, ath, rule, sides, values) && SidesShape(h, sides)
    requires s < SUBFRAMES && i < h.channels && h.frameSize <= |d|
    requires Ahead(d, 8 * h.frameSize, bit, RunFor(h, ath, rule, sides, values, s, i))
    ensures |sides[i].scaleFactors| == 128
    ensures var n := Header.CodedCount(h, Header.TypeOf(h, i));
      var end := bit + |RunFor(h, ath, rule, sides, values, s, i)|;
      Coefficients.DecodeRun(d, 8 * h.frameSize, bit, Resolution.Resolutions(rule, sides[i].scaleFactors, ath, n), n)
      == Coefficients.Coefficients(values[s][i], end)
      && RunOf(h, ath, rule, sides[i].scaleFactors, d, bit, i) == Some(end)
  {
    hide Coefficients.DecodeRun, Coefficients.EncodeRun, Coefficients.RunRepresentable, Coefficients.HoldsBits,
      Header.Params.Accepted, Header.TypeOf, Header.CodedCount, Below;
    var n := Header.CodedCount(h, Header.TypeOf(h, i));
    var full, rs := Resolution.Resolutions(rule, sides[i].scaleFactors, ath, n), CodedRes(h, ath, rule, sides[i].scaleFactors, i);
    RunShorter(rs, values[s][i]);
    Coefficients.CoefficientRoundTrip(d, 8 * h.frameSize, bit, rs, values[s][i]);
    RunOfPrefix(d, 8 * h.frameSize, bit, full, n, n);
    hide Resolution.Resolutions;
  }

  lemma RunShorter(rs: seq<nat>, vs: seq<int>)
    requires Coefficients.RunRepresentable(rs, vs)
    ensures rs != [] ==> |Coefficients.EncodeRun(rs, vs, |rs| - 1)| <= |Coefficients.EncodeRun(rs, vs, |rs|)|
  {
    hide Coefficients.Word, Coefficients.Representable;
  }

  lemma {:induction false} RunsReadBack(h: Header.Params, ath: seq<nat>, rule: Resolution.Rule, sides: seq<SideState>,
                                        values: seq<seq<seq<int>>>, d: seq<byte>, bit: nat, s: nat, i: nat)
    requires h.Accepted() && rule.WellFormed() && |ath| == 128 && ValuesFit(h, ath, rule, sides, values) && SidesShape(h, sides)
    requires (s < SUBFRAMES && i <= h.channels) || (s == SUBFRAMES && i == 0)
    requires h.frameSize <= |d| && Ahead(d, 8 * h.frameSize, bit, RunBits(h, ath, rule, sides, values, s, i))
    ensures RunsEnd(h, ath, rule, sides, d, bit, s, i) == Some(bit + |RunBits(h, ath, rule, sides, values, s, i)|)
    decreases s, i
  {
    hide *;
    RunsEndNext(h, ath, rule, sides, d, bit, s, i);
    if i > 0 {
      RunBitsNext(h, ath, rule, sides, values, s, i - 1);
      var before := RunBits(h, ath, rule, sides, values, s, i - 1);
      AheadParts(d, 8 * h.frameSize, bit, before, RunFor(h, ath, rule, sides, values, s, i - 1));
      RunsReadBack(h, ath, rule, sides, values, d, bit, s, i - 1);
      OneRunReadsBack(h, ath, rule, sides, values, d, bit + |before|, s, i - 1);
    } else if s > 0 {
      RunBitsNext(h, ath, rule, sides, values, s - 1, h.channels);
      RunsReadBack(h, ath, rule, sides, values, d, bit, s - 1, h.channels);
    } else {
      RunBitsNone(h, ath, rule, sides, values);
    }
  }

  lemma RunBitsNone(h: Header.Params, ath: seq<nat>, rule: Resolution.Rule, sides: seq<SideState>, values: seq<seq<seq<int>>>)
    requires h.Accepted() && rule.WellFormed() && |ath| == 128 && ValuesFit(h, ath, rule, sides, values)
    ensures RunBits(h, ath, rule, sides, values, 0, 0) == []
  {
    hide ValuesFit, Header.Params.Accepted;
  }

  lemma RunsEndNext(h: Header.Params, ath: seq<nat>, rule: Resolution.Rule, sides: seq<SideState>, d: seq<byte>, bit: nat,
                    s: nat, i: nat)
    requires h.Accepted() && SidesShape(h, sides) && i <= h.channels && h.frameSize <= |d|
    requires rule.WellFormed() && |ath| == 128
    ensures i > 0 ==>
      |sides| == h.channels && |sides[i - 1].scaleFactors| == 128
      && var before := RunsEnd(h, ath, rule, sides, d, bit, s, i - 1);
         before.Some? ==> RunsEnd(h, ath, rule, sides, d, bit, s, i)
                          == RunOf(h, ath, rule, sides[i - 1].scaleFactors, d, before.value, i - 1)
    ensures i == 0 && s > 0 ==>
      RunsEnd(h, ath, rule, sides, d, bit, s, i) == RunsEnd(h, ath, rule, sides, d, bit, s - 1, h.channels)
    ensures i == 0 && s == 0 ==> RunsEnd(h, ath, rule, sides, d, bit, s, i) == Some(bit)
  {
    hide RunOf, Header.Params.Accepted, Below;
  }

  // ---------- whole frames ----------

  /** All a frame says: its rule, side information for every channel, and values by subframe and channel. */
  datatype FramePlan = FramePlan(noise: nat, boundary: nat, channels: seq<ChannelPlan>, values: seq<seq<seq<int>>>)

  function RuleThen(h: Header.Params, p: FramePlan): Resolution.Rule
  {
    Resolution.Rule(p.noise, p.boundary, h.minResolution, h.maxResolution)
  }

  predicate Planned(h: Header.Params, ath: seq<nat>, p: FramePlan, sides: seq<SideState>)
    requires h.Accepted() && |ath| == 128 && SidesShape(h, sides)
  {
    RuleThen(h, p).WellFormed() && AllPlanned(h, p.channels)
    && ValuesFit(h, ath, RuleThen(h, p), SidesThen(h, p.channels, sides, h.channels), p.values)
  }

  function AllChains(h: Header.Params, p: FramePlan): seq<bool>
    requires h.Accepted() && AllPlanned(h, p.channels)
  {
    ChainBits(h, p.channels, h.channels)
  }

  function AllRuns(h: Header.Params, ath: seq<nat>, p: FramePlan, sides: seq<SideState>): seq<bool>
    requires h.Accepted() && |ath| == 128 && SidesShape(h, sides) && Planned(h, ath, p, sides)
  {
    RunBits(h, ath, RuleThen(h, p), SidesThen(h, p.channels, sides, h.channels), p.values, SUBFRAMES, 0)
  }

  /** Everything between the sync word and the checksum. */
  function FrameBits(h: Header.Params, ath: seq<nat>, p: FramePlan, sides: seq<SideState>): seq<bool>
    requires h.Accepted() && |ath| == 128 && SidesShape(h, sides) && Planned(h, ath, p, sides)
  {
    Coefficients.BitsOfNumber(9, p.noise) + (Coefficients.BitsOfNumber(7, p.boundary) + (AllChains(h, p) + AllRuns(h, ath, p, sides)))
  }

  /**
    The decoder has the settings written, and every coefficient is the value written times the scale of its band and
    the range of its resolution; bands that are not coded are silent.
   */
  ghost predicate SaysPlan(u: Synthesis.Setup, p: FramePlan, sides: seq<SideState>, f: Synthesis.Input)
    requires u.Valid() && SidesShape(u.h, sides) && Planned(u.h, u.ath, p, sides)
  {
    var rule, after := RuleThen(u.h, p), SidesThen(u.h, p.channels, sides, u.h.channels);
    SidesShape(u.h, after) && f.settings == Synthesis.AllSettings(u.h, u.ath, rule, after)
    && |f.spectra| == SUBFRAMES && forall s: nat, i: nat, k: nat :: s < SUBFRAMES && i < u.h.channels && k < 128 ==>
         |f.spectra[s]| == u.h.channels
         && f.spectra[s][i][k] == CoefficientThen(u, rule, after[i].scaleFactors, p.values[s][i], k)
  }

  function CoefficientThen(u: Synthesis.Setup, rule: Resolution.Rule, sf: seq<nat>, values: seq<int>, k: nat): real
    requires u.Valid() && rule.WellFormed() && |sf| == 128 && Below(sf, 64) && k < 128
  {
    var r := Resolution.ResolutionOf(rule, sf[k], u.ath[k], k);
    if k < |values| then u.tables.scaling[sf[k]] * u.tables.range[r] * (values[k] as real) else 0.0
  }

  lemma PlannedParts(h: Header.Params, ath: seq<nat>, p: FramePlan, sides: seq<SideState>)
    requires h.Accepted() && |ath| == 128 && SidesShape(h, sides) && Planned(h, ath, p, sides)
    ensures RuleThen(h, p) == Resolution.Rule(p.noise, p.boundary, h.minResolution, h.maxResolution)
    ensures RuleThen(h, p).WellFormed() && AllPlanned(h, p.channels) && p.noise < 512 && p.boundary < 128
    ensures var after := SidesThen(h, p.channels, sides, h.channels);
      ValuesFit(h, ath, RuleThen(h, p), after, p.values)
      && AllChains(h, p) == ChainBits(h, p.channels, h.channels)
      && AllRuns(h, ath, p, sides) == RunBits(h, ath, RuleThen(h, p), after, p.values, SUBFRAMES, 0)
  {
    hide AllPlanned, ValuesFit, ChainBits, RunBits, SidesThen, Header.Params.Accepted;
  }

  lemma FrameBitsIs(h: Header.Params, ath: seq<nat>, p: FramePlan, sides: seq<SideState>)
    requires h.Accepted() && |ath| == 128 && SidesShape(h, sides) && Planned(h, ath, p, sides)
    ensures AllPlanned(h, p.channels)
    ensures FrameBits(h, ath, p, sides) == Coefficients.BitsOfNumber(9, p.noise)
      + (Coefficients.BitsOfNumber(7, p.boundary) + (AllChains(h, p) + AllRuns(h, ath, p, sides)))
  {
    hide AllPlanned, ValuesFit, AllChains, AllRuns, SidesThen, Header.Params.Accepted;
  }

  lemma RuleReadsBack(h: Header.Params, d: seq<byte>, noise: nat, boundary: nat)
    requires h.frameSize <= |d| && noise < 512 && boundary < 128
    requires Ahead(d, 8 * h.frameSize, 16, Coefficients.BitsOfNumber(9, noise))
    requires Ahead(d, 8 * h.frameSize, 25, Coefficients.BitsOfNumber(7, boundary))
    ensures RuleOf(h, d) == Some(Resolution.Rule(noise, boundary, h.minResolution, h.maxResolution))
  {
    assert Pow2(7) == 128 && Pow2(8) == 256 && Pow2(9) == 512;
    FieldHeld(d, 8 * h.frameSize, 16, 9, noise);
    FieldHeld(d, 8 * h.frameSize, 25, 7, boundary);
    hide Ahead, FieldAt, Pow2, Coefficients.BitsOfNumber;
  }

  /** The four parts of the frame, each at its place. */
  lemma FrameAhead(h: Header.Params, ath: seq<nat>, p: FramePlan, sides: seq<SideState>, d: seq<byte>)
    requires h.Accepted() && |ath| == 128 && SidesShape(h, sides) && Planned(h, ath, p, sides)
    requires Ahead(d, 8 * h.frameSize, 16, FrameBits(h, ath, p, sides))
    ensures Ahead(d, 8 * h.frameSize, 16, Coefficients.BitsOfNumber(9, p.noise))
    ensures Ahead(d, 8 * h.frameSize, 25, Coefficients.BitsOfNumber(7, p.boundary))
    ensures AllPlanned(h, p.channels) && Ahead(d, 8 * h.frameSize, 32, AllChains(h, p))
    ensures Ahead(d, 8 * h.frameSize, 32 + |AllChains(h, p)|, AllRuns(h, ath, p, sides))
    ensures 16 + |FrameBits(h, ath, p, sides)| == 32 + |AllChains(h, p)| + |AllRuns(h, ath, p, sides)|
  {
    hide *;
    FrameBitsIs(h, ath, p, sides);
    var size, noise, boundary := 8 * h.frameSize, Coefficients.BitsOfNumber(9, p.noise), Coefficients.BitsOfNumber(7, p.boundary);
    var chains, runs := AllChains(h, p), AllRuns(h, ath, p, sides);
    AheadParts(d, size, 16, noise, boundary + (chains + runs));
    AheadParts(d, size, 25, boundary, chains + runs);
    AheadParts(d, size, 32, chains, runs);
  }

  /** A decrypted frame that holds these bits is accepted at their end, and everything written is read back. */
  lemma PlanReadsBack(u: Synthesis.Setup, p: FramePlan, sides: seq<SideState>, d: seq<byte>)
    requires u.Valid() && SidesShape(u.h, sides) && Planned(u.h, u.ath, p, sides) && u.h.frameSize <= |d|
    requires Ahead(d, 8 * u.h.frameSize, 16, FrameBits(u.h, u.ath, p, sides))
    ensures UnpackedOf(u.h, u.ath, d, sides) == Accepted(16 + |FrameBits(u.h, u.ath, p, sides)|)
    ensures SaysPlan(u, p, sides, Synthesis.InputOf(u.h, u.ath, u.tables, d, sides))
  {
    hide *;
    SetupParts(u);
    var h, ath := u.h, u.ath;
    PlannedParts(h, ath, p, sides);
    FrameAhead(h, ath, p, sides, d);
    RuleReadsBack(h, d, p.noise, p.boundary);
    ChainReadsBack(h, d, sides, p.channels, h.channels);
    var rule, after, start := RuleThen(h, p), SidesThen(h, p.channels, sides, h.channels), 32 + |AllChains(h, p)|;
    assert SidesAfter(h, d, 32, sides, h.channels) == Chain(after, start);
    RunsReadBack(h, ath, rule, after, p.values, d, start, SUBFRAMES, 0);
    UnpackedParts(h, ath, d, sides, rule, after, start, start + |AllRuns(h, ath, p, sides)|);
    Synthesis.InputParts(h, ath, u.tables, d, sides);
    var f := Synthesis.InputOf(h, ath, u.tables, d, sides);
    forall s: nat, i: nat | s < SUBFRAMES && i < h.channels
      ensures SpectrumSays(u, p, f, s, i)
    {
      SpectrumReadsBack(u, rule, after, p, d, start, f, s, i);
    }
    SaysPlanParts(u, p, sides, f);
  }

  lemma SetupParts(u: Synthesis.Setup)
    requires u.Valid()
    ensures u.h.Accepted() && |u.ath| == 128 && u.tables.Valid() && |u.cipher| == 256
  {
    hide Header.Params.Accepted;
  }

  predicate SpectrumSays(u: Synthesis.Setup, p: FramePlan, f: Synthesis.Input, s: nat, i: nat)
    requires u.Valid()
  {
    s < |f.spectra| && i < |f.spectra[s]| && i < |f.settings| && s < |p.values| && i < |p.values[s]|
    && f.settings[i].Valid() && |p.values[s][i]| == f.settings[i].n
    && f.spectra[s][i] == Synthesis.Dequantized(u.tables, f.settings[i], p.values[s][i])
  }

  lemma SaysPlanParts(u: Synthesis.Setup, p: FramePlan, sides: seq<SideState>, f: Synthesis.Input)
    requires u.Valid() && SidesShape(u.h, sides) && Planned(u.h, u.ath, p, sides)
    requires var after := SidesThen(u.h, p.channels, sides, u.h.channels);
      SidesShape(u.h, after) && RuleThen(u.h, p).WellFormed()
      && f.settings == Synthesis.AllSettings(u.h, u.ath, RuleThen(u.h, p), after)
    requires |f.spectra| == SUBFRAMES && Synthesis.Rows(u.h, f.spectra)
    requires forall s: nat, i: nat :: s < SUBFRAMES && i < u.h.channels ==> SpectrumSays(u, p, f, s, i)
    ensures SaysPlan(u, p, sides, f)
  {
    hide Header.Params.Accepted, SidesThen, Synthesis.AllSettings, Synthesis.Dequantized, RuleThen, Planned, Below,
      CoefficientThen;
    PlannedParts(u.h, u.ath, p, sides);
    var rule, after := RuleThen(u.h, p), SidesThen(u.h, p.channels, sides, u.h.channels);
    forall s: nat, i: nat, k: nat | s < SUBFRAMES && i < u.h.channels && k < 128
      ensures s < |p.values| && i < |p.values[s]| && |f.spectra[s]| == u.h.channels && after[i].Valid()
      ensures f.spectra[s][i][k] == CoefficientThen(u, rule, after[i].scaleFactors, p.values[s][i], k)
    {
      assert SpectrumSays(u, p, f, s, i);
      CoefficientIs(u, rule, after, f, p.values[s][i], i, k);
    }
  }

  lemma CoefficientIs(u: Synthesis.Setup, rule: Resolution.Rule, after: seq<SideState>, f: Synthesis.Input, values: seq<int>,
                      i: nat, k: nat)
    requires u.Valid() && rule.WellFormed() && SidesShape(u.h, after) && i < u.h.channels && k < 128
    requires f.settings == Synthesis.AllSettings(u.h, u.ath, rule, after)
    requires i < |f.settings| && f.settings[i].Valid() && |values| == f.settings[i].n
    ensures after[i].Valid()
    ensures Synthesis.Dequantized(u.tables, f.settings[i], values)[k]
         == CoefficientThen(u, rule, after[i].scaleFactors, values, k)
  {
    hide Header.Params.Accepted, Header.TypeOf, Header.CodedCount, Resolution.ResolutionOf;
  }

  lemma UnpackedParts(h: Header.Params, ath: seq<nat>, d: seq<byte>, sides: seq<SideState>, rule: Resolution.Rule,
                      after: seq<SideState>, start: nat, end: nat)
    requires h.Accepted() && SidesShape(h, sides) && |ath| == 128 && h.frameSize <= |d| && rule.WellFormed()
    requires RuleOf(h, d) == Some(rule) && SidesAfter(h, d, 32, sides, h.channels) == Chain(after, start)
    requires SidesShape(h, after) && RunsEnd(h, ath, rule, after, d, start, SUBFRAMES, 0) == Some(end)
    ensures UnpackedOf(h, ath, d, sides) == Accepted(end)
  {
    hide RuleOf, SidesAfter, RunsEnd, SidesShape, Header.Params.Accepted;
  }

  lemma SpectrumReadsBack(u: Synthesis.Setup, rule: Resolution.Rule, sides: seq<SideState>, p: FramePlan, d: seq<byte>,
                          bit: nat, f: Synthesis.Input, s: nat, i: nat)
    requires u.Valid() && rule.WellFormed() && ValuesFit(u.h, u.ath, rule, sides, p.values) && SidesShape(u.h, sides)
    requires s < SUBFRAMES && i < u.h.channels && u.h.frameSize <= |d|
    requires Ahead(d, 8 * u.h.frameSize, bit, RunBits(u.h, u.ath, rule, sides, p.values, SUBFRAMES, 0))
    requires f.settings == Synthesis.AllSettings(u.h, u.ath, rule, sides) && |f.spectra| == SUBFRAMES
    requires f.spectra[s] == Synthesis.SpectraAt(u.h, u.ath, u.tables, rule, sides, d, bit, s)
    ensures SpectrumSays(u, p, f, s, i)
  {
    hide *;
    SetupParts(u);
    var h, ath := u.h, u.ath;
    RunBitsNext(h, ath, rule, sides, p.values, s, i);
    RunBitsGrow(h, ath, rule, sides, p.values, s, i + 1);
    AheadStart(d, 8 * h.frameSize, bit, RunBits(h, ath, rule, sides, p.values, s, i + 1),
               RunBits(h, ath, rule, sides, p.values, SUBFRAMES, 0));
    var before := RunBits(h, ath, rule, sides, p.values, s, i);
    AheadParts(d, 8 * h.frameSize, bit, before, RunFor(h, ath, rule, sides, p.values, s, i));
    RunsReadBack(h, ath, rule, sides, p.values, d, bit, s, i);
    OneRunReadsBack(h, ath, rule, sides, p.values, d, bit + |before|, s, i);
    SpectrumIs(u, rule, sides, p, d, bit, bit + |before|, f, s, i);
  }

  lemma SpectrumIs(u: Synthesis.Setup, rule: Resolution.Rule, sides: seq<SideState>, p: FramePlan, d: seq<byte>,
                   bit: nat, at: nat, f: Synthesis.Input, s: nat, i: nat)
    requires u.Valid() && rule.WellFormed() && ValuesFit(u.h, u.ath, rule, sides, p.values) && SidesShape(u.h, sides)
    requires s < SUBFRAMES && i < u.h.channels && u.h.frameSize <= |d| && |sides[i].scaleFactors| == 128
    requires RunsEnd(u.h, u.ath, rule, sides, d, bit, s, i) == Some(at)
    requires var n := Header.CodedCount(u.h, Header.TypeOf(u.h, i));
      var run := Coefficients.DecodeRun(d, 8 * u.h.frameSize, at,
                                        Resolution.Resolutions(rule, sides[i].scaleFactors, u.ath, n), n);
      run.Coefficients? && run.values == p.values[s][i]
    requires f.settings == Synthesis.AllSettings(u.h, u.ath, rule, sides) && |f.spectra| == SUBFRAMES
    requires f.spectra[s] == Synthesis.SpectraAt(u.h, u.ath, u.tables, rule, sides, d, bit, s)
    ensures SpectrumSays(u, p, f, s, i)
  {
    hide Header.Params.Accepted, Header.TypeOf, Header.CodedCount, Coefficients.DecodeRun, RunsEnd, Synthesis.Dequantized,
      Resolution.Resolutions, Below, Coefficients.RunRepresentable;
    ValuesLength(u, rule, sides, p, s, i);
  }

  lemma ValuesLength(u: Synthesis.Setup, rule: Resolution.Rule, sides: seq<SideState>, p: FramePlan, s: nat, i: nat)
    requires u.Valid() && rule.WellFormed() && ValuesFit(u.h, u.ath, rule, sides, p.values)
    requires s < SUBFRAMES && i < u.h.channels
    ensures s < |p.values| && i < |p.values[s]| && |p.values[s][i]| == Header.CodedCount(u.h, Header.TypeOf(u.h, i))
  {
    hide Header.Params.Accepted, Header.TypeOf, Header.CodedCount, Resolution.Resolutions, Coefficients.Representable;
    assert Coefficients.RunRepresentable(CodedRes(u.h, u.ath, rule, sides[i].scaleFactors, i), p.values[s][i]);
  }

  // ---------- the frame as it stands in a file ----------

  /** Sync word, bits and zeros up to the checksum. */
  function BodyBytes(bits: seq<bool>, size: nat): (b: seq<byte>)
    requires 32 + |bits| <= 8 * size
    ensures |b| == size - 2
  {
    [255, 255] + Coefficients.Pack(bits + seq(8 * (size - 4) - |bits|, _ => false))
  }

  /** The same encrypted, with its checksum. */
  function FileBytes(bits: seq<bool>, size: nat, table: seq<byte>): (f: seq<byte>)
    requires 32 + |bits| <= 8 * size && |table| == 256
    ensures |f| == size
  {
    WithChecksum(Cipher.Substituted(Cipher.InverseTable(table), BodyBytes(bits, size)))
  }

  /** The frame fits, with the eight bits behind it that short reads need in front of the checksum. */
  predicate Room(h: Header.Params, ath: seq<nat>, p: FramePlan, sides: seq<SideState>)
    requires h.Accepted() && |ath| == 128 && SidesShape(h, sides) && Planned(h, ath, p, sides)
  {
    16 + |FrameBits(h, ath, p, sides)| + 24 <= 8 * h.frameSize
  }

  lemma BodyHolds(bits: seq<bool>, size: nat, d: seq<byte>)
    requires 40 + |bits| <= 8 * size && size <= |d| && d[..size - 2] == BodyBytes(bits, size)
    ensures Ahead(d, 8 * size, 16, bits)
  {
    var padded := bits + seq(8 * (size - 4) - |bits|, _ => false);
    assert padded[0..0 + |bits|] == bits;
    Coefficients.PackedStreamHolds(padded, 0, bits);
    var packed := Coefficients.Pack(padded);
    hide Coefficients.Pack, BitAt;
    forall i | 0 <= i < |bits| ensures BitAt(d, 16 + i) == 1 <==> bits[i] {
      ShiftedBit(d, packed, i);
      assert BitAt(packed, 0 + i) == 1 <==> bits[i];
    }
  }

  lemma ShiftedBit(d: seq<byte>, packed: seq<byte>, i: nat)
    requires |packed| + 2 <= |d| && d[2..2 + |packed|] == packed && i < 8 * |packed|
    ensures BitAt(d, 16 + i) == BitAt(packed, i)
  {
    hide Pow2;
    assert (16 + i) / 8 == 2 + i / 8 && (16 + i) % 8 == i % 8;
    assert d[2..2 + |packed|][i / 8] == d[2 + i / 8];
  }

  lemma DecryptedBody(body: seq<byte>, table: seq<byte>)
    requires Cipher.IsSubstitution(table)
    ensures var f := WithChecksum(Cipher.Substituted(Cipher.InverseTable(table), body));
      Decrypted(table, f, |f|)[..|body|] == body
    ensures var e := Cipher.Substituted(Cipher.InverseTable(table), body);
      forall i :: 0 <= i < |body| && body[i] == 255 ==> e[i] == 255
  {
    var inverse := Cipher.InverseTable(table);
    var e := Cipher.Substituted(inverse, body);
    forall i | 0 <= i < |body| ensures table[e[i]] == body[i] {
      Cipher.InverseUndoes(table, body[i]);
    }
    Cipher.InverseUndoes(table, 255);
    hide Cipher.InverseTable, Cipher.Injective;
    var f := WithChecksum(e);
    assert inverse[table[255]] == 255;
    forall i | 0 <= i < |body| ensures Decrypted(table, f, |f|)[i] == body[i] {
      assert f[i] == e[i];
    }
  }

  lemma FileFacts(bits: seq<bool>, size: nat, table: seq<byte>)
    requires 40 + |bits| <= 8 * size && Cipher.IsSubstitution(table)
    ensures var f := FileBytes(bits, size, table);
      |f| == size && f[..size] == f && FieldAt(f, 8 * size, 0, 16) == Field(0xFFFF, 16)
      && Crc.BitCrc(Crc.BitsOf(AsBits(f))) == 0 && Ahead(Decrypted(table, f, size), 8 * size, 16, bits)
  {
    hide Crc.BitCrc, Crc.BitsOf, Crc.Crc, FieldAt, Ahead, Coefficients.Pack, Cipher.InverseTable, Decrypted;
    var body := BodyBytes(bits, size);
    DecryptedBody(body, table);
    var f := FileBytes(bits, size, table);
    ChecksumRight(Cipher.Substituted(Cipher.InverseTable(table), body));
    assert f[..size] == f;
    assert body[0] == 255 && body[1] == 255;
    SyncReads(f, size);
    BodyHolds(bits, size, Decrypted(table, f, size));
  }

  function FrameBytes(u: Synthesis.Setup, p: FramePlan, sides: seq<SideState>): (f: seq<byte>)
    requires u.Valid() && SidesShape(u.h, sides) && Planned(u.h, u.ath, p, sides) && Room(u.h, u.ath, p, sides)
    ensures |f| == u.h.frameSize
  {
    FileBytes(FrameBits(u.h, u.ath, p, sides), u.h.frameSize, u.cipher)
  }

  /**
    Round trip of whole frames: whatever is planned for a frame that it has room for, the decoder accepts the frame
    written, has the settings and dequantized values of the plan, and keeps its side information for the next frame.
   */
  lemma FrameReadsBack(u: Synthesis.Setup, p: FramePlan, sides: seq<SideState>)
    requires u.Valid() && SidesShape(u.h, sides) && Planned(u.h, u.ath, p, sides) && Room(u.h, u.ath, p, sides)
    requires Cipher.IsSubstitution(u.cipher)
    ensures var f := FrameBytes(u, p, sides);
      var d := Decrypted(u.cipher, f, u.h.frameSize);
      OutcomeOf(u.h, u.ath, u.cipher, f, sides) == Accepted(16 + |FrameBits(u.h, u.ath, p, sides)|)
      && UnpackedOf(u.h, u.ath, d, sides).Accepted?
      && SaysPlan(u, p, sides, Synthesis.InputOf(u.h, u.ath, u.tables, d, sides))
      && NextSides(u.h, u.ath, u.cipher, f, sides) == SidesThen(u.h, p.channels, sides, u.h.channels)
  {
    hide *;
    SetupParts(u);
    RoomIs(u, p, sides);
    var h, bits := u.h, FrameBits(u.h, u.ath, p, sides);
    var f := FrameBytes(u, p, sides);
    FileFacts(bits, h.frameSize, u.cipher);
    var d := Decrypted(u.cipher, f, h.frameSize);
    PlanReadsBack(u, p, sides, d);
    OutcomeParts(h, u.ath, u.cipher, f, sides);
    PlannedParts(h, u.ath, p, sides);
    FrameAhead(h, u.ath, p, sides, d);
    ChainReadsBack(h, d, sides, p.channels, h.channels);
    NextCases(h, u.ath, u.cipher, f, sides);
  }

  lemma RoomIs(u: Synthesis.Setup, p: FramePlan, sides: seq<SideState>)
    requires u.Valid() && SidesShape(u.h, sides) && Planned(u.h, u.ath, p, sides) && Room(u.h, u.ath, p, sides)
    ensures 40 + |FrameBits(u.h, u.ath, p, sides)| <= 8 * u.h.frameSize
    ensures FrameBytes(u, p, sides) == FileBytes(FrameBits(u.h, u.ath, p, sides), u.h.frameSize, u.cipher)
  {
    hide FrameBits, Planned, FileBytes, Header.Params.Accepted;
  }

  lemma OutcomeParts(h: Header.Params, ath: seq<nat>, table: seq<byte>, f: seq<byte>, sides: seq<SideState>)
    requires h.Accepted() && SidesShape(h, sides) && |ath| == 128 && |table| == 256 && |f| == h.frameSize && f[..h.frameSize] == f
    requires FieldAt(f, 8 * h.frameSize, 0, 16) == Field(0xFFFF, 16) && Crc.BitCrc(Crc.BitsOf(AsBits(f))) == 0
    ensures OutcomeOf(h, ath, table, f, sides) == UnpackedOf(h, ath, Decrypted(table, f, h.frameSize), sides)
  {
    hide FieldAt, Crc.BitCrc, Crc.BitsOf, AsBits, UnpackedOf, Decrypted, Header.Params.Accepted;
  }
}

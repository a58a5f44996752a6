/**
  The frame decoder on its arrays: checks, decryption and unpacking of every channel, the
  restoration of missing bands, and what stays true of the decoder over any sequence of frames.
 */
module FrameDecoder {
  import opened Bytes
  import opened BitReader
  import opened Channel
  import opened Energy
  import opened Frame
  import opened Imdct
  import opened Synthesis
  import Cipher
  import Coefficients
  import Crc
  import Header
  import Hfr
  import Resolution
  import opened Streams
  import Transform

  // ---------- one channel ----------

  method NewSpectra() returns (spectra: seq<array<real>>)
    ensures |spectra| == SUBFRAMES && forall i :: 0 <= i < SUBFRAMES ==> fresh(spectra[i]) && spectra[i].Length == 128
    ensures forall i, j :: 0 <= i < j < SUBFRAMES ==> spectra[i] != spectra[j]
  {
    spectra := [];
    for n := 0 to SUBFRAMES
      invariant |spectra| == n && forall i :: 0 <= i < n ==> fresh(spectra[i]) && spectra[i].Length == 128
      invariant forall i, j :: 0 <= i < j < n ==> spectra[i] != spectra[j]
    {
      var s := new real[128];
      spectra := spectra + [s];
    }
  }

  /** Spectra, waves and buffers are different arrays. */
  ghost predicate Separate(spectra: seq<array<real>>, wave: seq<array<real>>, buffers: ChannelBuffers)
  {
    |spectra| == |wave| == SUBFRAMES && buffers.temp.Length == buffers.imdctPrevious.Length == 128
    && buffers.temp != buffers.imdctPrevious
    && (forall i :: 0 <= i < SUBFRAMES ==> spectra[i].Length == wave[i].Length == 128)
    && (forall i :: 0 <= i < SUBFRAMES ==> spectra[i] != buffers.temp && spectra[i] != buffers.imdctPrevious)
    && (forall i :: 0 <= i < SUBFRAMES ==> wave[i] != buffers.temp && wave[i] != buffers.imdctPrevious)
    && (forall i, j :: 0 <= i < j < SUBFRAMES ==> spectra[i] != spectra[j] && wave[i] != wave[j])
    && forall i, j :: 0 <= i < SUBFRAMES && 0 <= j < SUBFRAMES ==> spectra[i] != wave[j]
  }

  class FrameChannel {
    const side: StChannel
    const resolution: array<nat>
    const noises: array<nat>
    var noiseCount: nat
    var validCount: nat
    const gain: array<real>
    const spectra: seq<array<real>>
    const wave: seq<array<real>>
    const buffers: ChannelBuffers

    /** Side information: what later steps read and only unpacking changes. */
    ghost function Core(): set<object>
    {
      {this, side.intensity, side.scaleFactors, resolution, noises, gain}
    }

    ghost function Signals(): set<object>
    {
      (set s | s in spectra + wave) + {buffers.temp, buffers.imdctPrevious}
    }

    ghost function Waves(): set<object>
    {
      (set s | s in wave) + {buffers.imdctPrevious}
    }

    /** Everything this channel may change. */
    ghost function Repr(): set<object>
    {
      Core() + Signals()
    }

    lemma OwnAreas()
      requires Shape()
      ensures Waves() <= Signals() <= Repr() && Core() <= Repr() && Signals() !! Core()
      ensures forall w :: w in spectra ==> w in Signals() && w !in Waves()
    {
      hide Core;
      assert forall w :: w in spectra ==> w in spectra + wave;
    }

    lemma OwnApart()
      requires Shape()
      ensures |spectra| == SUBFRAMES && Waves() <= Signals() && buffers.temp in Signals() && buffers.temp !in Waves()
      ensures forall s :: 0 <= s < SUBFRAMES ==> spectra[s] in Signals() && spectra[s] !in Waves()
      ensures forall s :: 0 <= s < SUBFRAMES ==> spectra[s] != buffers.temp
      ensures forall s, s' :: 0 <= s < SUBFRAMES && 0 <= s' < SUBFRAMES && s != s' ==> spectra[s] != spectra[s']
    {
      hide Core;
      assert forall s :: 0 <= s < SUBFRAMES ==> spectra[s] in spectra + wave;
    }

    /** The arrays are those of this channel alone, none serving two purposes. */
    ghost predicate Shape()
    {
      resolution.Length == noises.Length == gain.Length == 128
      && resolution != noises && resolution != side.scaleFactors && resolution != side.intensity
      && noises != side.scaleFactors && noises != side.intensity
      && Separate(spectra, wave, buffers) && Core() !! Signals()
    }

    /** What no frame breaks: values in range, and the two band lists side by side within the coded bands. */
    ghost predicate Valid()
      reads side, Core()
    {
      Shape() && side.Valid() && noiseCount + validCount <= side.codedCount
      && forall i :: 0 <= i < 128 ==> resolution[i] <= 15
    }

    /** What the side information of the last frame says. */
    ghost function Now(): Settings
      reads side, Core()
    {
      Settings(side.channelType, side.codedCount, side.scaleFactors[..], side.intensity[..], resolution[..])
    }

    lemma NowValid()
      requires Valid()
      ensures Now().Valid()
    {
    }

    /** Resolutions and band lists follow from the side information. */
    ghost predicate Listed(rule: Resolution.Rule, ath: seq<nat>)
      requires Valid()
      reads side, Core()
    {
      rule.WellFormed() && |ath| == 128
      && resolution[..] == Resolution.Resolutions(rule, side.scaleFactors[..], ath, side.codedCount)
      && Resolution.ListsHeld(noises[..], side.scaleFactors[..], resolution[..], side.codedCount, noiseCount, validCount)
    }

    /** What an accepted frame establishes, and all later steps rely on: the gains as well. */
    ghost predicate Settled(rule: Resolution.Rule, ath: seq<nat>, tables: Frame.Tables)
      requires Valid()
      reads side, Core()
    {
      Listed(rule, ath) && tables.Valid() && Now().Valid()
      && forall i :: 0 <= i < side.codedCount ==> gain[i] == Gain(tables, Now(), i)
    }

    constructor (channelType: ChannelType, codedCount: nat)
      requires codedCount <= 128
      ensures Valid() && fresh(Repr()) && fresh(side)
      ensures side.channelType == channelType && side.codedCount == codedCount
      ensures side.scaleFactors[..] == FreshSide().scaleFactors && side.intensity[..] == FreshSide().intensity
      ensures buffers.imdctPrevious[..] == Transform.Silence()
    {
      side := new StChannel(channelType, codedCount);
      resolution := new nat[128](_ => 0);
      noises := new nat[128](_ => 0);
      noiseCount, validCount := 0, 0;
      gain := new real[128];
      var s := NewSpectra();
      var w := NewSpectra();
      spectra, wave := s, w;
      buffers := new ChannelBuffers();
    }

    /** Step 1 of a frame for this channel; an invalid intensity does not reject the frame. */
    method Unpack(br: ClData, hfrGroupCount: nat, version: nat, rule: Resolution.Rule, ath: seq<nat>, tables: Frame.Tables)
      returns (status: Status)
      requires Valid() && br.Valid() && rule.WellFormed() && |ath| == 128 && tables.Valid()
      modifies br`bit, Core()
      ensures Valid()
      ensures status.Done? ==> Settled(rule, ath, tables)
      ensures var s := SideAfter(br.data, br.size, old(br.bit), side.channelType, side.codedCount,
                                 old(side.scaleFactors[..]), old(side.intensity[..]), hfrGroupCount, version);
        status == (if s.SideRead? then Done else if s.SideRejected? then Rejected else Panicked)
        && (status.Done? ==>
              side.scaleFactors[..] == s.scaleFactors && side.intensity[..] == s.intensity && br.bit == s.end)
        && (status.Rejected? ==>
              side.scaleFactors[..] == s.scaleFactors && side.intensity[..] == old(side.intensity[..]))
      ensures br.Valid()
    {
      hide Times, ScalesAfter, IntensitiesAfter;
      status := side.UnpackScaleFactors(br, hfrGroupCount, version);
      if !status.Done? {
        return;
      }
      status := side.UnpackIntensity(br, hfrGroupCount, version);
      if status.Panicked? {
        return;
      }
      Resolve(rule, ath);
      CalculateGain(rule, ath, tables);
      status := Done;
    }

    /** Step 2 of a frame: the coefficients of one subframe. */
    method Dequantize(br: ClData, subframe: nat, ghost rule: Resolution.Rule, ghost ath: seq<nat>, ghost tables: Frame.Tables)
      returns (ok: bool)
      requires Valid() && Settled(rule, ath, tables) && br.Valid() && subframe < SUBFRAMES
      modifies br`bit, spectra[subframe]
      ensures br.Valid()
      ensures var run := Coefficients.DecodeRun(br.data, br.size, old(br.bit), Now().res, side.codedCount);
        ok == run.Coefficients?
        && (ok ==> br.bit == run.end && |run.values| == side.codedCount && Now().Valid()
                   && spectra[subframe][..] == Dequantized(tables, Now(), run.values))
    {
      NowValid();
      hide Coefficients.DecodeRun, Coefficients.Scaled, Resolution.Resolutions, Resolution.ListsHeld, Times;
      assert spectra[subframe] in Signals();
      ok := Coefficients.DequantizeCoefficients(br, resolution, gain, side.codedCount, spectra[subframe]);
    }

    /** Step 3 of a frame: the missing bands of one subframe, first noise, then the high bands. */
    method Restore(h: Header.Params, ghost rule: Resolution.Rule, ghost ath: seq<nat>, tables: Frame.Tables, random: nat,
                   subframe: nat)
      returns (r: nat, ok: bool)
      requires Valid() && Settled(rule, ath, tables) && subframe < SUBFRAMES
      requires h.Accepted() && (h.BandsOrdered() || h.bandsPerHfrGroup == 0)
      modifies spectra[subframe]
      ensures ok == (side.channelType.StereoSecondary? || !BadLayout(h))
      ensures Now().Valid() && r == RandomNext(h, Now(), random)
      ensures ok && Restorable(h) ==>
        spectra[subframe][..] == Restored(h, tables.conversion, Now(), old(spectra[subframe][..]), random)
    {
      NowValid();
      LayoutValid(h);
      assert spectra[subframe] in Signals();
      hide Resolution.ListsHeld, Resolution.SubstitutedAtOnce, Resolution.RandomAfter, Hfr.Mirrored, LayoutOf;
      r := Resolution.ReconstructNoise(tables.conversion, noises[..], side.scaleFactors[..], resolution[..], side.codedCount,
                                       noiseCount, validCount, h.minResolution, h.msStereo,
                                       side.channelType.StereoPrimary?, random, spectra[subframe]);
      ghost var filled := spectra[subframe][..];
      NoisyIs(h, tables.conversion, random, old(spectra[subframe][..]), filled);
      ok := Hfr.ReconstructHighFrequency(LayoutOf(h), side.channelType.StereoSecondary?, tables.conversion,
                                         side.scaleFactors[..], spectra[subframe]);
    }

    /** Carry and waves are those of a run of the inverse transform. */
    ghost predicate Plays(t: Transform.Tables, carry: Transform.Block, blocks: seq<Transform.Block>)
      reads wave, buffers.imdctPrevious
    {
      t.WellFormed() && |blocks| <= |wave|
      && var r := Transform.Run(t, carry, blocks);
         buffers.imdctPrevious[..] == r.carry && forall s :: 0 <= s < |blocks| ==> wave[s][..] == r.waves[s]
    }

    /** Step 4: the inverse transform of one subframe takes that run one block further. */
    method InverseTransform(t: Transform.Tables, subframe: nat, ghost carry: Transform.Block,
                            ghost blocks: seq<Transform.Block>, ghost x: Transform.Block)
      requires subframe < |spectra| && subframe < |wave| && |blocks| == subframe && Plays(t, carry, blocks)
      requires Separate(spectra, wave, buffers) && t.WellFormed() && spectra[subframe][..] == x
      modifies spectra[subframe], wave[subframe], buffers.temp, buffers.imdctPrevious
      ensures Plays(t, carry, blocks + [x])
    {
      hide Transform.Run;
      Transform.RunJoin(t, carry, blocks, [x]);
      buffers.ImdctTransform(t, spectra[subframe], wave[subframe]);
    }

    method Resolve(rule: Resolution.Rule, ath: seq<nat>)
      requires Valid() && rule.WellFormed() && |ath| == 128
      modifies this`noiseCount, this`validCount, resolution, noises
      ensures Valid() && Listed(rule, ath)
    {
      noiseCount, validCount :=
        Resolution.CalculateResolution(side.scaleFactors, resolution, noises, ath, side.codedCount, rule);
      Resolution.ListsFit(noises[..], side.scaleFactors[..], resolution[..], side.codedCount, noiseCount, validCount);
      ghost var r := Resolution.Resolutions(rule, side.scaleFactors[..], ath, side.codedCount);
      assert forall i :: 0 <= i < 128 ==> resolution[i] == resolution[..][i] == r[i];
      hide Resolution.ListsHeld, Resolution.Resolutions;
    }

    /** Scale factors and resolutions in range make both look-ups safe. */
    method CalculateGain(ghost rule: Resolution.Rule, ghost ath: seq<nat>, tables: Frame.Tables)
      requires Valid() && Listed(rule, ath) && tables.Valid()
      modifies gain
      ensures Valid() && Settled(rule, ath, tables)
    {
      NowValid();
      hide Times, Resolution.ListsHeld, Resolution.Resolutions;
      for i := 0 to side.codedCount
        modifies gain
        invariant forall k :: 0 <= k < i ==> gain[k] == Gain(tables, Now(), k)
      {
        gain[i] := Times(tables.scaling[side.scaleFactors[i]], tables.range[resolution[i]]);
      }
    }

    /** What the lists in one array make of a spectrum. */
    lemma NoisyIs(h: Header.Params, table: seq<real>, random: nat, before: seq<real>, filled: seq<real>)
      requires Valid() && |table| == |before| == |filled| == 128
      requires Resolution.ListsHeld(noises[..], side.scaleFactors[..], resolution[..], side.codedCount, noiseCount, validCount)
      requires if Resolution.Substitutes(h.minResolution, h.msStereo, side.channelType.StereoPrimary?, noiseCount, validCount)
        then 0 < validCount <= 128 && noiseCount <= 128
             && Resolution.SubstitutedAtOnce(table, noises[..], side.scaleFactors[..], before, filled, noiseCount, validCount,
                                             random)
        else filled == before
      ensures Now().Valid() && noiseCount == |Resolution.Unresolved(Now().sf, Now().res, Now().n)|
      ensures validCount == |Resolution.Resolved(Now().sf, Now().res, Now().n)|
      ensures filled == Noisy(h, table, Now(), before, random)
    {
      NowValid();
      Resolution.ListSizes(noises[..], side.scaleFactors[..], resolution[..], side.codedCount, noiseCount, validCount);
      hide Resolution.SubstitutedAtOnce, Resolution.NoiseFilled, Resolution.ListsHeld, Resolution.Unresolved,
        Resolution.Resolved;
      if Substitutes(h, Now()) {
        Resolution.NoiseIsFilled(table, noises[..], side.scaleFactors[..], resolution[..], side.codedCount, before, filled,
                                 noiseCount, validCount, random);
      }
    }
  }

  /** The stereo bands of the left channel become two. */
  method ApplyIntensityStereo(left: array<real>, right: array<real>, ratio: real, base: nat, total: nat)
    requires left.Length == right.Length == 128 && left != right && total <= 128
    modifies left, right
    ensures left[..] == LeftShare(old(left[..]), ratio, base, total)
    ensures right[..] == RightShare(old(left[..]), old(right[..]), ratio, base, total)
    ensures forall b :: base <= b < total ==> left[b] + right[b] == 2.0 * old(left[b])
  {
    hide Times;
    ghost var x: Transform.Block, y: Transform.Block := left[..], right[..];
    var ratioR := 2.0 - ratio;
    var band := base;
    while band < total
      invariant base <= band && (band <= total || band == base)
      invariant forall b :: base <= b < band ==> left[b] == Times(x[b], ratio) && right[b] == Times(x[b], 2.0 - ratio)
      invariant forall b :: 0 <= b < 128 && !(base <= b < band) ==> left[b] == x[b] && right[b] == y[b]
    {
      var coefL, coefR := Times(left[band], ratio), Times(left[band], ratioR);
      left[band], right[band] := coefL, coefR;
      band := band + 1;
    }
    forall b | base <= b < total
      ensures left[b] + right[b] == 2.0 * x[b]
    {
      SharesSum(x, y, ratio, base, total, b);
    }
  }

  // ---------- the decoder ----------

  /** The channels share nothing. */
  ghost predicate Apart(cs: seq<FrameChannel>)
  {
    (forall i, j :: 0 <= i < |cs| && 0 <= j < |cs| && i != j ==> cs[i].Repr() !! cs[j].Repr())
    && forall i, j :: 0 <= i < |cs| && 0 <= j < |cs| ==> cs[i].side !in cs[j].Repr()
  }

  lemma SideOutside(a: FrameChannel, b: FrameChannel)
    ensures a.side !in b.Repr()
  {
  }

  lemma ApartExtended(cs: seq<FrameChannel>, c: FrameChannel)
    requires Apart(cs) && c.side !in c.Repr()
    requires forall i :: 0 <= i < |cs| ==>
      cs[i].Repr() !! c.Repr() && cs[i].side !in c.Repr() && c.side !in cs[i].Repr()
    ensures Apart(cs + [c])
  {
    hide FrameChannel.Repr;
  }

  class ClHCA {
    const h: Header.Params
    const athCurve: seq<nat>
    const tables: Frame.Tables
    const mdct: Transform.Tables
    const cipherTable: array<byte>
    const channel: seq<FrameChannel>

    /** Everything a frame may change besides its own bytes. */
    ghost function Owned(): set<object>
    {
      set c, o | c in channel && o in c.Repr() :: o
    }

    ghost function Sides(): set<object>
    {
      set c | c in channel :: c.side
    }

    ghost predicate Shape()
    {
      Apart(channel) && h.Accepted() && |athCurve| == 128 && tables.Valid() && mdct.WellFormed() && cipherTable.Length == 256
      && |channel| == h.channels && (forall i :: 0 <= i < |channel| ==> cipherTable !in channel[i].Repr())
    }

    ghost predicate ChannelsValid()
      requires Shape()
      reads Cores(), Sides()
    {
      forall i :: 0 <= i < |channel| ==> channel[i].Valid()
    }

    ghost predicate Typed()
      requires Shape()
      reads Sides()
    {
      forall i :: 0 <= i < |channel| ==>
        channel[i].side.channelType == Header.TypeOf(h, i)
        && channel[i].side.codedCount == Header.CodedCount(h, Header.TypeOf(h, i))
    }

    /** Every frame, whatever its outcome, leaves this as it is. */
    ghost predicate Valid()
      reads Cores(), Sides()
    {
      Shape() && ChannelsValid() && Typed()
    }

    ghost predicate Settled(rule: Resolution.Rule)
      requires Shape() && ChannelsValid()
      reads Cores(), Sides()
    {
      rule.WellFormed() && forall i :: 0 <= i < |channel| ==> channel[i].Settled(rule, athCurve, tables)
    }

    /** The decoder of an accepted header: every channel gets its type and coded bands. */
    constructor (h: Header.Params, athCurve: seq<nat>, tables: Frame.Tables, mdct: Transform.Tables, cipherTable: array<byte>)
      requires h.Accepted() && |athCurve| == 128 && tables.Valid() && mdct.WellFormed() && cipherTable.Length == 256
      ensures Valid() && this.h == h && this.cipherTable == cipherTable && fresh(Owned())
      ensures this.mdct == mdct && Snap(FreshSides(h)) && Playing(SilentCarries(h), [])
    {
      var cs := NewChannels(h, cipherTable);
      this.h, this.athCurve, this.tables, this.mdct, this.cipherTable, this.channel :=
        h, athCurve, tables, mdct, cipherTable, cs;
      new;
      hide *;
      StartsFresh();
    }

    lemma StartsFresh()
      requires h.Accepted() && Apart(channel) && |athCurve| == 128 && tables.Valid() && mdct.WellFormed()
      requires cipherTable.Length == 256 && |channel| == h.channels
      requires forall i :: 0 <= i < |channel| ==> Made(h, i, channel[i]) && cipherTable !in channel[i].Repr()
      ensures Valid() && Snap(FreshSides(h)) && Playing(SilentCarries(h), [])
    {
      hide FrameChannel.Valid, FrameChannel.Repr, FrameChannel.Core, Header.TypeOf, Header.CodedCount, Header.Params.Accepted,
        Playing;
      SilenceBehind();
    }

    static method NewChannels(h: Header.Params, cipherTable: array<byte>) returns (cs: seq<FrameChannel>)
      requires h.Accepted()
      ensures |cs| == h.channels && Apart(cs)
      ensures forall i :: 0 <= i < |cs| ==> Made(h, i, cs[i]) && fresh(cs[i].Repr()) && cipherTable !in cs[i].Repr()
    {
      var types := Header.InitChannels(h);
      cs := [];
      for n := 0 to h.channels
        invariant |cs| == n && Apart(cs) && forall i :: 0 <= i < h.channels ==> types[i] == Header.TypeOf(h, i)
        invariant forall i :: 0 <= i < n ==> Made(h, i, cs[i]) && fresh(cs[i].Repr()) && cipherTable !in cs[i].Repr()
      {
        hide *;
        assert forall i :: 0 <= i < n ==> allocated(cs[i]) && allocated(cs[i].side) && allocated(cs[i].Repr());
        var c := new FrameChannel(types[n], Header.CodedCount(h, types[n]));
        MadeIs(h, n, c);
        SideOutside(c, c);
        forall i | 0 <= i < n
          ensures cs[i].Repr() !! c.Repr() && cs[i].side !in c.Repr() && c.side !in cs[i].Repr()
        {
          SideOutside(c, cs[i]);
          SideOutside(cs[i], c);
        }
        ApartExtended(cs, c);
        cs := cs + [c];
      }
    }

    /** A new channel: its type and coded bands, and silence behind it. */
    static ghost predicate Made(h: Header.Params, i: nat, c: FrameChannel)
      requires h.Accepted()
      reads c.side, c.Core(), c.buffers.imdctPrevious
    {
      c.Valid() && c.side.channelType == Header.TypeOf(h, i)
      && c.side.codedCount == Header.CodedCount(h, Header.TypeOf(h, i))
      && c.side.scaleFactors[..] == FreshSide().scaleFactors && c.side.intensity[..] == FreshSide().intensity
      && c.buffers.imdctPrevious[..] == Transform.Silence()
    }

    static lemma MadeIs(h: Header.Params, i: nat, c: FrameChannel)
      requires h.Accepted()
      ensures Made(h, i, c) <==>
        c.Valid() && c.side.channelType == Header.TypeOf(h, i)
        && c.side.codedCount == Header.CodedCount(h, Header.TypeOf(h, i))
        && c.side.scaleFactors[..] == FreshSide().scaleFactors && c.side.intensity[..] == FreshSide().intensity
        && c.buffers.imdctPrevious[..] == Transform.Silence()
    {
    }

    /** The side information the channels hold. */
    ghost predicate Snap(sides: seq<SideState>)
      reads Cores(), Sides()
    {
      |sides| == |channel|
      && forall i :: 0 <= i < |channel| ==>
           (InCore(channel[i]);
            channel[i].side.scaleFactors[..] == sides[i].scaleFactors
            && channel[i].side.intensity[..] == sides[i].intensity)
    }

    /** Steps 1 and 2 of a frame: checks, decryption in place, side information and coefficients of every channel. */
    method DecodeBlockUnpack(data: array<byte>, ghost sides: seq<SideState>)
      returns (res: Outcome, ghost rule: Resolution.Rule)
      requires Valid() && data != cipherTable && data !in Owned() && SidesShape(h, sides) && Snap(sides)
      modifies data, Cores(), Spectra()
      ensures Valid()
      ensures res == OutcomeOf(h, athCurve, cipherTable[..], old(data[..]), sides)
      ensures res.BadParams? || res.BadSync? || res.BadChecksum? ==> data[..] == old(data[..])
      ensures res.BadUnpack? || res.Accepted? ==>
        h.frameSize <= data.Length && data[..] == Decrypted(cipherTable[..], old(data[..]), h.frameSize)
      ensures res.Accepted? ==> Sound(rule) && RuleOf(h, data[..]) == Some(rule)
      ensures res.Accepted? ==>
        UnpackedOf(h, athCurve, data[..], sides).Accepted? && Holding(InputOf(h, athCurve, tables, data[..], sides))
      ensures !res.BrokenOff? ==> Snap(NextSides(h, athCurve, cipherTable[..], old(data[..]), sides))
    {
      hide *;
      Outside(data);
      NextCases(h, athCurve, cipherTable[..], data[..], sides);
      rule := Resolution.Rule(0, 0, 0, 0);
      if data.Length < h.frameSize {
        TooShort(h, athCurve, cipherTable[..], data[..], sides);
        return BadParams, rule;
      }
      Checks(h, athCurve, cipherTable[..], data[..], sides);
      var br := new ClData(data[..], h.frameSize);
      var sync := ReadField(br, 16);
      if sync.NoField? {
        return BrokenOff, rule;
      }
      if sync.v != 0xFFFF {
        return BadSync, rule;
      }
      var sum := Checksum(data);
      if sum != 0 {
        return BadChecksum, rule;
      }
      Cipher.CipherDecrypt(cipherTable, data, h.frameSize);
      DecryptedIs(cipherTable[..], old(data[..]), h.frameSize);
      br.data := data[..];
      StillReadable(br, data.Length);
      res, rule := UnpackFrame(br, sides);
    }

    lemma TooShort(h: Header.Params, ath: seq<nat>, table: seq<byte>, data: seq<byte>, sides: seq<SideState>)
      requires h.Accepted() && SidesShape(h, sides) && |ath| == 128 && |table| == 256 && |data| < h.frameSize
      ensures OutcomeOf(h, ath, table, data, sides) == BadParams
    {
    }

    lemma Checks(h: Header.Params, ath: seq<nat>, table: seq<byte>, data: seq<byte>, sides: seq<SideState>)
      requires h.Accepted() && SidesShape(h, sides) && |ath| == 128 && |table| == 256 && h.frameSize <= |data|
      ensures var sync := FieldAt(data, 8 * h.frameSize, 0, 16);
        OutcomeOf(h, ath, table, data, sides)
        == if sync.NoField? then BrokenOff else if sync.v != 0xFFFF then BadSync
           else if Crc.BitCrc(Crc.BitsOf(AsBits(data[..h.frameSize]))) != 0 then BadChecksum
           else UnpackedOf(h, ath, Decrypted(table, data, h.frameSize), sides)
    {
      hide FieldAt, Crc.BitCrc, Crc.BitsOf, AsBits, UnpackedOf, Decrypted;
    }

    lemma DecryptedIs(table: seq<byte>, data: seq<byte>, size: nat)
      requires |table| == 256 && size <= |data|
      ensures Decrypted(table, data, size) == Cipher.Substituted(table, data[..size]) + data[size..]
    {
    }

    /** The frame and the reader are no part of the decoder. */
    lemma Outside(data: array<byte>)
      requires Valid() && data !in Owned()
      ensures cipherTable.Length == 256 && cipherTable !in Owned() && h.Accepted() && |athCurve| == 128
      ensures allocated(Owned()) && allocated(Cores()) && allocated(Sides()) && allocated(Spectra())
      ensures data !in Sides() && Cores() <= Owned() && Spectra() <= Owned() && tables.Valid()
    {
      Areas();
    }

    lemma CoresOwned()
      ensures Cores() <= Owned()
      ensures allocated(Owned()) && allocated(Cores()) && allocated(Sides())
    {
      hide FrameChannel.Core;
      Existing();
      forall c | c in channel ensures c.Core() <= c.Repr() {
      }
    }

    lemma SignalsOwned()
      ensures AllSignals() <= Owned()
    {
      hide FrameChannel.Core, FrameChannel.Signals;
      forall c | c in channel ensures c.Signals() <= c.Repr() {
      }
    }

    lemma StillReadable(br: ClData, length: nat)
      requires br.size == 8 * h.frameSize && |br.data| == length && h.frameSize <= length
      ensures br.Valid()
    {
    }

    method Checksum(data: array<byte>) returns (sum: bv16)
      requires h.frameSize <= data.Length
      ensures sum == Crc.BitCrc(Crc.BitsOf(AsBits(data[..h.frameSize])))
    {
      var bits := new bv8[h.frameSize](i requires 0 <= i < h.frameSize && i < data.Length reads data => data[i] as bv8);
      sum := Crc.Crc16Checksum(bits, h.frameSize);
      assert bits[..h.frameSize] == AsBits(data[..h.frameSize]);
    }

    method UnpackFrame(br: ClData, ghost sides: seq<SideState>) returns (res: Outcome, ghost rule: Resolution.Rule)
      requires Valid() && br.Valid() && br !in Owned() && SidesShape(h, sides) && Snap(sides)
      requires br.bit == 16 && h.frameSize <= |br.data| && br.size == 8 * h.frameSize
      modifies br`bit, Cores(), Spectra()
      ensures Valid()
      ensures res == UnpackedOf(h, athCurve, br.data, sides) && (res.BadUnpack? || res.Accepted? || res.BrokenOff?)
      ensures res.Accepted? ==> Sound(rule) && RuleOf(h, br.data) == Some(rule)
      ensures res.Accepted? ==> Holding(InputOf(h, athCurve, tables, br.data, sides))
      ensures res.Accepted? || res.BadUnpack? ==>
        var c := SidesAfter(h, br.data, 32, sides, h.channels);
        !c.ChainPanicked? && Snap(c.sides)
    {
      hide *;
      Readers(br);
      rule := Resolution.Rule(0, 0, 0, 0);
      RuleParts(br.data);
      ghost var spec := RuleOf(h, br.data);
      UnpackedCases(br.data, sides);
      var noise := ReadField(br, 9);
      if noise.NoField? {
        return BrokenOff, rule;
      }
      var boundary := ReadField(br, 7);
      if boundary.NoField? {
        return BrokenOff, rule;
      }
      var r := Resolution.Rule(noise.v, boundary.v, h.minResolution, h.maxResolution);
      rule := r;
      RuleFits(h, br.data);
      NoneSettled(r);
      ghost var c := SidesAfter(h, br.data, 32, sides, 0);
      NoSides(h, br.data, sides);
      for i := 0 to |channel|
        invariant Valid() && br.Valid() && SettledUpTo(r, i)
        invariant c == SidesAfter(h, br.data, 32, sides, i) && c.Chain? && Snap(c.sides) && br.bit == c.end
      {
        SidesNext(h, br.data, sides, i + 1);
        var status := UnpackChannel(br, i, r, c.sides);
        c := SidesAfter(h, br.data, 32, sides, i + 1);
        if status.Rejected? {
          SidesStay(h, br.data, sides, i + 1, h.channels);
          return BadUnpack, rule;
        }
        if status.Panicked? {
          SidesStay(h, br.data, sides, i + 1, h.channels);
          return BrokenOff, rule;
        }
      }
      AllSettled(r);
      SoundIs(r);
      SoundSize(r);
      ghost var start := br.bit;
      var ok := DequantizeAll(br, r, c.sides);
      SoundIs(r);
      res := if ok then Accepted(br.bit) else BrokenOff;
      if ok {
        InputParts(h, athCurve, tables, br.data, sides);
        SettingsHeld(r, c.sides);
        HoldingIs(InputOf(h, athCurve, tables, br.data, sides));
      }
    }

    /** What an accepted frame hands to the later steps. */
    ghost predicate Holding(f: Input)
      reads Cores(), Sides(), Spectra()
    {
      NowAre(f.settings) && |f.spectra| == SUBFRAMES
      && forall s :: 0 <= s < SUBFRAMES ==> (RowInside(s); RowIs(s, f.spectra[s]))
    }

    lemma HoldingIs(f: Input)
      ensures Holding(f) <==>
        NowAre(f.settings) && |f.spectra| == SUBFRAMES && forall s :: 0 <= s < SUBFRAMES ==> RowIs(s, f.spectra[s])
    {
      hide NowAre, RowIs, Row, Spectra, Cores, Sides;
    }

    lemma RowInside(s: nat)
      ensures Row(s) <= Spectra()
    {
      forall c | c in channel && s < |c.spectra| ensures c.spectra[s] in Spectra() {
        assert c.spectra[s] in c.spectra;
      }
    }

    lemma SettingsHeld(rule: Resolution.Rule, sides: seq<SideState>)
      requires Sound(rule) && SidesShape(h, sides) && Snap(sides)
      ensures h.Accepted() && |athCurve| == 128 && rule.WellFormed()
      ensures NowAre(AllSettings(h, athCurve, rule, sides))
    {
      SoundSize(rule);
      hide FrameChannel.Core, FrameChannel.Settled, FrameChannel.Repr, FrameChannel.Valid, FrameChannel.Now, SettingsOf, Sound,
        SidesShape, Snap;
      forall i | 0 <= i < |channel|
        ensures channel[i].Now() == AllSettings(h, athCurve, rule, sides)[i]
      {
        NowIs(rule, sides, i);
      }
    }

    lemma RuleParts(d: seq<byte>)
      requires h.frameSize <= |d|
      ensures var f := FieldAt(d, 8 * h.frameSize, 16, 9);
        RuleOf(h, d) == if f.NoField? || FieldAt(d, 8 * h.frameSize, 25, 7).NoField? then None
                        else Some(Resolution.Rule(f.v, FieldAt(d, 8 * h.frameSize, 25, 7).v, h.minResolution, h.maxResolution))
    {
      hide Peek;
    }

    lemma UnpackedCases(d: seq<byte>, sides: seq<SideState>)
      requires Shape() && SidesShape(h, sides) && h.frameSize <= |d|
      ensures |channel| == h.channels && h.Accepted() && |athCurve| == 128
      ensures RuleOf(h, d).Some? ==> RuleOf(h, d).value.WellFormed()
      ensures RuleOf(h, d).None? ==> UnpackedOf(h, athCurve, d, sides) == BrokenOff
      ensures RuleOf(h, d).Some? ==>
        var c := SidesAfter(h, d, 32, sides, h.channels);
        UnpackedOf(h, athCurve, d, sides)
        == if c.ChainRejected? then BadUnpack else if c.ChainPanicked? then BrokenOff
           else
             var bit := RunsEnd(h, athCurve, RuleOf(h, d).value, c.sides, d, c.end, SUBFRAMES, 0);
             if bit.None? then BrokenOff else Accepted(bit.value)
    {
      RuleFits(h, d);
      hide RuleOf, SidesAfter, RunsEnd;
    }

    ghost predicate SettledUpTo(rule: Resolution.Rule, n: nat)
      requires Valid() && n <= |channel|
      reads Cores(), Sides()
    {
      rule.WellFormed() && forall i :: 0 <= i < n ==> channel[i].Settled(rule, athCurve, tables)
    }

    lemma NoneSettled(rule: Resolution.Rule)
      requires Valid() && rule.noise < 512 && rule.boundary < 128
      requires rule.minResolution == h.minResolution && rule.maxResolution == h.maxResolution
      ensures SettledUpTo(rule, 0)
    {
    }

    lemma AllSettled(rule: Resolution.Rule)
      requires Valid() && SettledUpTo(rule, |channel|)
      ensures Settled(rule)
    {
      hide FrameChannel.Valid, FrameChannel.Settled;
    }

    lemma Readers(br: ClData)
      requires Valid() && br !in Owned()
      ensures Shape() && tables.Valid() && br !in Sides() && br !in Cores() && br !in Spectra()
      ensures allocated(Owned()) && allocated(Cores()) && allocated(Sides()) && allocated(Spectra())
      ensures forall k :: 0 <= k < |channel| ==> channel[k].Core() <= Cores()
      ensures Spectra() !! Cores() && Spectra() !! Sides()
    {
      hide FrameChannel.Core;
      Areas();
      CoresOwned();
    }

    /** Everything was built once and for all. */
    ghost predicate Built()
    {
      Shape() && forall c :: c in channel ==> c.Shape()
    }

    lemma BuiltIs()
      requires Valid()
      ensures Built()
    {
      hide FrameChannel.Core, FrameChannel.Repr, FrameChannel.Shape;
      forall c | c in channel ensures c.Shape() {
        assert c.Valid();
      }
    }

    /** Side information, spectra, and waves with carries do not meet. */
    lemma Areas()
      requires Valid()
      ensures Cores() <= Owned() && Spectra() <= Owned() && Output() <= Owned() && cipherTable !in Owned()
      ensures Spectra() !! Cores() && Spectra() !! Sides() && Spectra() !! Output()
      ensures Output() !! Cores() && Output() !! Sides()
      ensures allocated(Owned()) && allocated(Cores()) && allocated(Sides()) && allocated(Spectra()) && allocated(Output())
    {
      BuiltIs();
      Existing();
      hide FrameChannel.Core, FrameChannel.Signals, FrameChannel.Repr, FrameChannel.Waves, FrameChannel.Valid, Separate;
      forall c | c in channel
        ensures c.Waves() <= c.Signals() <= c.Repr() && c.Core() <= c.Repr()
        ensures forall w :: w in c.spectra ==> w in c.Signals() && w !in c.Waves()
        ensures c.Signals() !! c.Core() && c.side !in c.Signals()
      {
        c.OwnAreas();
        SideOutside(c, c);
      }
      forall c, c' | c in channel && c' in channel && c != c'
        ensures c.Repr() !! c'.Repr() && c.side !in c'.Repr()
      {
        SideOutside(c, c');
      }
    }

    /** Unpacking one channel leaves the others as they are. */
    method UnpackChannel(br: ClData, i: nat, rule: Resolution.Rule, ghost sides: seq<SideState>) returns (status: Status)
      requires Valid() && br.Valid() && br !in Owned() && i < |channel| && SettledUpTo(rule, i)
      requires SidesShape(h, sides) && Snap(sides) && h.frameSize <= |br.data| && br.size == 8 * h.frameSize
      modifies br`bit, channel[i].Core()
      ensures Valid() && br.Valid() && (status.Done? ==> SettledUpTo(rule, i + 1))
      ensures var c := OneMore(h, br.data, old(br.bit), sides, i);
        status == (if c.Chain? then Done else if c.ChainRejected? then Rejected else Panicked)
        && (!status.Panicked? ==> Snap(c.sides)) && (status.Done? ==> br.bit == c.end)
    {
      hide FrameChannel.Valid, FrameChannel.Settled, FrameChannel.Repr, FrameChannel.Core;
      hide FieldAt, SideAfter, Times, Header.TypeOf, Header.CodedCount;
      Existing();
      NotTouched(br, i, i);
      status := channel[i].Unpack(br, h.HfrGroupCount(), h.version, rule, athCurve, tables);
      forall k | 0 <= k < |channel| && k != i
        ensures channel[k].Valid() && (k < i ==> channel[k].Settled(rule, athCurve, tables))
        ensures channel[k].side.scaleFactors[..] == sides[k].scaleFactors
        ensures channel[k].side.intensity[..] == sides[k].intensity
      {
        NotTouched(br, i, k);
        InCore(channel[k]);
        assert old(channel[k].Valid());
        assert k < i ==> old(channel[k].Settled(rule, athCurve, tables));
      }
    }

    lemma InCore(c: FrameChannel)
      ensures c.side.scaleFactors in c.Core() && c.side.intensity in c.Core()
    {
    }

    lemma Existing()
      ensures forall k :: 0 <= k < |channel| ==> allocated(channel[k]) && allocated(channel[k].side)
      ensures forall k :: 0 <= k < |channel| ==> allocated(channel[k].Core()) && allocated(channel[k].Repr())
      ensures allocated(Owned()) && allocated(Sides()) && allocated(cipherTable)
    {
      hide FrameChannel.Repr;
      hide FrameChannel.Core;
      forall k | 0 <= k < |channel| ensures allocated(channel[k].Core()) && allocated(channel[k].Repr()) {
        assert allocated(channel[k]);
      }
    }

    /** Unpacking channel i touches nothing another channel depends on. */
    lemma NotTouched(br: ClData, i: nat, k: nat)
      requires Shape() && i < |channel| && k < |channel| && br !in Owned()
      ensures channel[i].Repr() <= Owned()
      ensures br != (channel[k].side as object) && br !in channel[k].Repr()
      ensures channel[k].side !in channel[i].Repr()
      ensures k != i ==> forall o :: o in channel[k].Core() ==> o !in channel[i].Repr()
      ensures channel[k].Core() <= channel[k].Repr() <= Owned()
    {
      hide FrameChannel.Core, FrameChannel.Signals;
      assert channel[k].Repr() <= Owned();
    }

    // The later steps change spectra only; what they rely on lies elsewhere.

    ghost function Spectra(): set<object>
    {
      set c, s | c in channel && s in c.spectra :: s
    }

    ghost function AllSignals(): set<object>
    {
      set c, s | c in channel && s in c.Signals() :: s
    }

    ghost function Cores(): set<object>
    {
      set c, o | c in channel && o in c.Core() :: o
    }

    /** The state after an accepted frame. */
    ghost predicate Sound(rule: Resolution.Rule)
      reads Cores(), Sides()
    {
      Shape() && (forall i :: 0 <= i < |channel| ==> channel[i].Valid()) && Typed() && rule.WellFormed()
      && forall i :: 0 <= i < |channel| ==> channel[i].Settled(rule, athCurve, tables)
    }

    lemma SoundIs(rule: Resolution.Rule)
      ensures Sound(rule) <==> Valid() && Settled(rule)
    {
      hide FrameChannel.Valid, FrameChannel.Settled, FrameChannel.Core, FrameChannel.Repr;
    }

    lemma SoundOne(rule: Resolution.Rule, i: nat)
      requires Sound(rule) && i < |channel|
      ensures channel[i].Valid() && channel[i].Settled(rule, athCurve, tables) && |channel| == h.channels
      ensures channel[i].side.channelType == Header.TypeOf(h, i)
    {
      hide FrameChannel.Valid, FrameChannel.Settled, FrameChannel.Core, FrameChannel.Repr;
    }

    lemma SignalsApart(i: nat, j: nat)
      requires Shape() && i < |channel| && j < |channel| && channel[i].Shape() && channel[j].Shape()
      ensures channel[i].Core() !! channel[j].Signals() && channel[i].side !in channel[j].Signals()
      ensures channel[i].Core() <= channel[i].Repr() && channel[j].Signals() <= channel[j].Repr()
    {
      hide FrameChannel.Core, FrameChannel.Signals;
      assert channel[j].side !in channel[j].Repr();
    }

    lemma Untouched(rule: Resolution.Rule, br: ClData)
      requires Sound(rule) && br !in Owned()
      ensures forall o :: o in AllSignals() ==> o !in Cores() && o !in Sides() && o in Owned()
      ensures br !in Cores() && br !in Sides()
      ensures allocated(Cores()) && allocated(Sides()) && allocated(AllSignals())
    {
      hide FrameChannel.Core, FrameChannel.Signals, FrameChannel.Repr, FrameChannel.Settled;
      Existing();
      forall i, j | 0 <= i < |channel| && 0 <= j < |channel|
        ensures channel[i].Core() !! channel[j].Signals() && channel[i].side !in channel[j].Signals()
        ensures channel[i].Core() <= channel[i].Repr() && channel[j].Signals() <= channel[j].Repr()
      {
        SignalsApart(i, j);
      }
    }

    lemma InSignals(rule: Resolution.Rule, i: nat, subframe: nat)
      requires Sound(rule) && i < |channel| && subframe < SUBFRAMES
      ensures subframe < |channel[i].spectra| && channel[i].spectra[subframe] in AllSignals()
    {
      hide FrameChannel.Core, FrameChannel.Settled;
      assert channel[i].spectra[subframe] in channel[i].Signals();
    }

    // ---------- rows of spectra ----------

    /** The spectra of subframe s, channel by channel. */
    ghost function Row(s: nat): set<object>
    {
      set c | c in channel && s < |c.spectra| :: c.spectra[s]
    }

    /** What outlives the inverse transform of a subframe. */
    ghost function Output(): set<object>
    {
      set c, o | c in channel && o in c.Waves() :: o
    }

    ghost function Temps(): set<object>
    {
      set c | c in channel :: c.buffers.temp
    }

    ghost predicate RowIs(s: nat, xs: seq<seq<real>>)
      reads Row(s)
    {
      |xs| == |channel| && forall i :: 0 <= i < |channel| ==>
        s < |channel[i].spectra| && (assert channel[i].spectra[s] in Row(s); channel[i].spectra[s][..] == xs[i])
    }

    lemma RowParts(s: nat, xs: seq<seq<real>>)
      ensures RowIs(s, xs) <==>
        |xs| == |channel|
        && forall i :: 0 <= i < |channel| ==> s < |channel[i].spectra| && channel[i].spectra[s][..] == xs[i]
    {
    }

    /** Nothing else in a row is the array of channel i. */
    lemma RowDistinct(rule: Resolution.Rule, i: nat, s: nat)
      requires Sound(rule) && i < |channel| && s < SUBFRAMES
      ensures s < |channel[i].spectra| && channel[i].spectra[s] in Row(s)
      ensures forall k :: 0 <= k < |channel| ==> s < |channel[k].spectra| && channel[k].spectra[s].Length == 128
      ensures forall k :: 0 <= k < |channel| && k != i ==> channel[k].spectra[s] != channel[i].spectra[s]
    {
      hide FrameChannel.Core, FrameChannel.Settled;
      forall k | 0 <= k < |channel| && k != i ensures channel[k].spectra[s] != channel[i].spectra[s] {
        assert channel[k].spectra[s] in channel[k].Repr() && channel[i].spectra[s] in channel[i].Repr();
      }
    }

    lemma InRepr(k: nat, s: nat)
      requires k < |channel| && s < |channel[k].spectra|
      ensures channel[k].spectra[s] in channel[k].Signals() && channel[k].Waves() <= channel[k].Signals()
      ensures channel[k].buffers.temp in channel[k].Signals() && channel[k].Signals() <= channel[k].Repr()
    {
      hide FrameChannel.Core;
    }

    /** Rows, waves with carries, and work buffers do not meet. */
    lemma RowsApart(rule: Resolution.Rule)
      requires Sound(rule)
      ensures forall s, s' :: 0 <= s < SUBFRAMES && 0 <= s' < SUBFRAMES && s != s' ==> Row(s) !! Row(s')
      ensures forall s :: 0 <= s < SUBFRAMES ==> Row(s) <= AllSignals() && Row(s) !! Output() && Row(s) !! Temps()
      ensures Output() <= AllSignals() && Temps() <= AllSignals() && Temps() !! Output()
      ensures forall s :: 0 <= s < SUBFRAMES ==> Row(s) <= Spectra()
      ensures Spectra() <= AllSignals()
    {
      hide FrameChannel.Core, FrameChannel.Settled, FrameChannel.Signals, FrameChannel.Repr, FrameChannel.Waves, Separate;
      forall c | c in channel
        ensures |c.spectra| == SUBFRAMES && forall w :: w in c.spectra ==> w in c.Signals()
        ensures c.Waves() <= c.Signals() && c.buffers.temp in c.Signals() && c.buffers.temp !in c.Waves()
        ensures forall s :: 0 <= s < SUBFRAMES ==> c.spectra[s] in c.Signals() && c.spectra[s] !in c.Waves()
        ensures forall s :: 0 <= s < SUBFRAMES ==> c.spectra[s] != c.buffers.temp
        ensures forall s, s' :: 0 <= s < SUBFRAMES && 0 <= s' < SUBFRAMES && s != s' ==> c.spectra[s] != c.spectra[s']
      {
        c.OwnApart();
        c.OwnAreas();
      }
      forall c, c' | c in channel && c' in channel && c != c'
        ensures c.Signals() !! c'.Signals()
      {
        OthersApart(c, c');
      }
      forall s | 0 <= s < SUBFRAMES ensures Row(s) <= Spectra() {
        RowInside(s);
      }
    }

    lemma OthersApart(c: FrameChannel, c': FrameChannel)
      requires Shape() && c in channel && c' in channel && c != c'
      ensures c.Signals() !! c'.Signals()
    {
      hide FrameChannel.Core, FrameChannel.Signals;
      assert c.Signals() <= c.Repr() && c'.Signals() <= c'.Repr();
    }

    // ---------- step 2: coefficients ----------

    /** The first k spectra of a subframe are decoded. */
    ghost predicate RowUpTo(s: nat, k: nat, rule: Resolution.Rule, sides: seq<SideState>, d: seq<byte>, bit: nat)
      requires Shape() && SidesShape(h, sides) && h.frameSize <= |d| && rule.WellFormed()
      reads Row(s)
    {
      forall i :: 0 <= i < k && i < |channel| ==>
        s < |channel[i].spectra|
        && (assert channel[i].spectra[s] in Row(s);
            channel[i].spectra[s][..] == SpectrumAt(h, athCurve, tables, rule, sides, d, bit, s, i))
    }

    lemma RowUpToParts(s: nat, k: nat, rule: Resolution.Rule, sides: seq<SideState>, d: seq<byte>, bit: nat)
      requires Shape() && SidesShape(h, sides) && h.frameSize <= |d| && rule.WellFormed()
      ensures h.Accepted() && |athCurve| == 128 && tables.Valid() && |channel| == h.channels
      ensures RowUpTo(s, k, rule, sides, d, bit) <==>
        forall i :: 0 <= i < k && i < |channel| ==>
          s < |channel[i].spectra|
          && channel[i].spectra[s][..] == SpectrumAt(h, athCurve, tables, rule, sides, d, bit, s, i)
    {
      hide SpectrumAt;
    }

    lemma RowDone(s: nat, rule: Resolution.Rule, sides: seq<SideState>, d: seq<byte>, bit: nat)
      requires Sound(rule) && SidesShape(h, sides) && h.frameSize <= |d|
      requires RowUpTo(s, |channel|, rule, sides, d, bit)
      ensures h.Accepted() && |athCurve| == 128 && tables.Valid() && rule.WellFormed()
      ensures RowIs(s, SpectraAt(h, athCurve, tables, rule, sides, d, bit, s))
    {
      hide SpectrumAt;
    }

    /** One channel of one subframe. */
    method DequantizeOne(br: ClData, rule: Resolution.Rule, ghost sides: seq<SideState>, ghost start: nat, subframe: nat, i: nat)
      returns (ok: bool)
      requires Sound(rule) && br.Valid() && br !in Owned() && SidesShape(h, sides) && Snap(sides) && subframe < SUBFRAMES
      requires h.frameSize <= |br.data| && br.size == 8 * h.frameSize && i < |channel|
      requires RowUpTo(subframe, i, rule, sides, br.data, start)
      requires RunsEnd(h, athCurve, rule, sides, br.data, start, subframe, i) == Some(br.bit)
      modifies br`bit, channel[i].spectra[subframe]
      ensures Sound(rule) && Snap(sides) && br.Valid()
      ensures var end := RunOf(h, athCurve, rule, sides[i].scaleFactors, br.data, old(br.bit), i);
        ok == end.Some? && (ok ==> br.bit == end.value && RowUpTo(subframe, i + 1, rule, sides, br.data, start))
    {
      hide *;
      Untouched(rule, br);
      SoundOne(rule, i);
      InSignals(rule, i, subframe);
      SoundSize(rule);
      RowDistinct(rule, i, subframe);
      RowUpToParts(subframe, i, rule, sides, br.data, start);
      ok := channel[i].Dequantize(br, subframe, rule, athCurve, tables);
      SoundOne(rule, i);
      RunKnown(rule, sides, br.data, start, old(br.bit), subframe, i);
      RowUpToParts(subframe, i + 1, rule, sides, br.data, start);
    }

    /** The coefficients of all channels, subframe by subframe. */
    method DequantizeAll(br: ClData, rule: Resolution.Rule, ghost sides: seq<SideState>) returns (ok: bool)
      requires Sound(rule) && br.Valid() && br !in Owned() && SidesShape(h, sides) && Snap(sides)
      requires h.frameSize <= |br.data| && br.size == 8 * h.frameSize
      requires rule.WellFormed() && |athCurve| == 128 && h.Accepted() && tables.Valid()
      modifies br`bit, Spectra()
      ensures Sound(rule) && Snap(sides)
      ensures var end := RunsEnd(h, athCurve, rule, sides, br.data, old(br.bit), SUBFRAMES, 0);
        ok == end.Some? && (ok ==> br.bit == end.value)
      ensures ok ==> forall s :: 0 <= s < SUBFRAMES ==>
        RowIs(s, SpectraAt(h, athCurve, tables, rule, sides, br.data, old(br.bit), s))
    {
      hide *;
      Untouched(rule, br);
      RowsApart(rule);
      SoundSize(rule);
      ghost var start := br.bit;
      RunsStart(rule, sides, br.data, start);
      for subframe := 0 to SUBFRAMES
        invariant Sound(rule) && Snap(sides) && br.Valid() && br.data == old(br.data) && br.size == old(br.size)
        invariant RunsEnd(h, athCurve, rule, sides, br.data, start, subframe, 0) == Some(br.bit)
        invariant forall s :: 0 <= s < subframe ==> RowIs(s, SpectraAt(h, athCurve, tables, rule, sides, br.data, start, s))
      {
        RowUpToParts(subframe, 0, rule, sides, br.data, start);
        for i := 0 to |channel|
          invariant Sound(rule) && Snap(sides) && br.Valid() && br.data == old(br.data) && br.size == old(br.size)
          invariant RunsEnd(h, athCurve, rule, sides, br.data, start, subframe, i) == Some(br.bit)
          invariant RowUpTo(subframe, i, rule, sides, br.data, start)
          invariant forall s :: 0 <= s < subframe ==> RowIs(s, SpectraAt(h, athCurve, tables, rule, sides, br.data, start, s))
        {
          RowDistinct(rule, i, subframe);
          RunsNext(rule, sides, br.data, start, subframe, i + 1);
          ok := DequantizeOne(br, rule, sides, start, subframe, i);
          if !ok {
            RunsStay(rule, sides, br.data, start, subframe, i + 1, SUBFRAMES, 0);
            return;
          }
        }
        RowDone(subframe, rule, sides, br.data, start);
        RunsWrap(rule, sides, br.data, start, subframe + 1);
      }
      ok := true;
    }

    lemma SoundSize(rule: Resolution.Rule)
      requires Sound(rule)
      ensures |channel| == h.channels && Shape() && h.Accepted() && |athCurve| == 128 && tables.Valid() && mdct.WellFormed()
      ensures rule.WellFormed()
    {
    }

    lemma RunsStart(rule: Resolution.Rule, sides: seq<SideState>, d: seq<byte>, bit: nat)
      requires h.Accepted() && SidesShape(h, sides) && h.frameSize <= |d| && rule.WellFormed() && |athCurve| == 128
      ensures RunsEnd(h, athCurve, rule, sides, d, bit, 0, 0) == Some(bit)
    {
    }

    lemma RunsNext(rule: Resolution.Rule, sides: seq<SideState>, d: seq<byte>, bit: nat, subframe: nat, i: nat)
      requires h.Accepted() && SidesShape(h, sides) && h.frameSize <= |d| && rule.WellFormed() && |athCurve| == 128
      requires 0 < i <= h.channels && RunsEnd(h, athCurve, rule, sides, d, bit, subframe, i - 1).Some?
      ensures RunsEnd(h, athCurve, rule, sides, d, bit, subframe, i)
           == RunOf(h, athCurve, rule, sides[i - 1].scaleFactors, d,
                    RunsEnd(h, athCurve, rule, sides, d, bit, subframe, i - 1).value, i - 1)
    {
      hide RunOf;
    }

    lemma RunsWrap(rule: Resolution.Rule, sides: seq<SideState>, d: seq<byte>, bit: nat, subframe: nat)
      requires h.Accepted() && SidesShape(h, sides) && h.frameSize <= |d| && rule.WellFormed() && |athCurve| == 128
      requires subframe > 0
      ensures RunsEnd(h, athCurve, rule, sides, d, bit, subframe, 0)
           == RunsEnd(h, athCurve, rule, sides, d, bit, subframe - 1, h.channels)
    {
    }

    lemma {:induction false} RunsStay(rule: Resolution.Rule, sides: seq<SideState>, d: seq<byte>, bit: nat, subframe: nat,
                                      i: nat, subframe': nat, i': nat)
      requires h.Accepted() && SidesShape(h, sides) && h.frameSize <= |d| && rule.WellFormed() && |athCurve| == 128
      requires i <= h.channels && i' <= h.channels && (subframe < subframe' || (subframe == subframe' && i <= i'))
      requires RunsEnd(h, athCurve, rule, sides, d, bit, subframe, i).None?
      ensures RunsEnd(h, athCurve, rule, sides, d, bit, subframe', i').None?
      decreases subframe', i'
    {
      hide RunOf;
      if subframe != subframe' || i != i' {
        if i' > 0 {
          RunsStay(rule, sides, d, bit, subframe, i, subframe', i' - 1);
        } else {
          RunsStay(rule, sides, d, bit, subframe, i, subframe' - 1, h.channels);
        }
      }
    }

    /** What the coefficients of a channel are read and scaled with follows from its side information. */
    lemma RunKnown(rule: Resolution.Rule, sides: seq<SideState>, d: seq<byte>, start: nat, bit: nat, subframe: nat, i: nat)
      requires Sound(rule) && SidesShape(h, sides) && Snap(sides) && i < |channel| && h.frameSize <= |d|
      ensures |channel| == h.channels && channel[i].Valid() && channel[i].Now().Valid()
      ensures h.Accepted() && |athCurve| == 128 && tables.Valid() && rule.WellFormed()
      ensures channel[i].side.codedCount == channel[i].Now().n
      ensures var run := Coefficients.DecodeRun(d, 8 * h.frameSize, bit, channel[i].Now().res, channel[i].Now().n);
        RunOf(h, athCurve, rule, sides[i].scaleFactors, d, bit, i) == (if run.Coefficients? then Some(run.end) else None)
        && (RunsEnd(h, athCurve, rule, sides, d, start, subframe, i) == Some(bit)
            && run.Coefficients? && |run.values| == channel[i].Now().n ==>
              SpectrumAt(h, athCurve, tables, rule, sides, d, start, subframe, i)
              == Dequantized(tables, channel[i].Now(), run.values))
    {
      NowIs(rule, sides, i);
      hide Coefficients.DecodeRun, Resolution.Resolutions, Resolution.ListsHeld, Dequantized, RunsEnd;
    }

    /** The side information of all channels settles everything else. */
    lemma NowIs(rule: Resolution.Rule, sides: seq<SideState>, i: nat)
      requires Sound(rule) && SidesShape(h, sides) && Snap(sides) && i < |channel|
      ensures |channel| == h.channels && h.Accepted() && |athCurve| == 128 && rule.WellFormed()
      ensures channel[i].Now() == SettingsOf(h, athCurve, rule, sides[i], i)
    {
      hide Resolution.Resolutions, Resolution.ListsHeld, FrameChannel.Core, FrameChannel.Repr;
    }

    // ---------- step 3: missing bands and joint stereo ----------

    /** What the last accepted frame settled, channel by channel. */
    ghost predicate NowAre(ss: seq<Settings>)
      reads Cores(), Sides()
    {
      |ss| == |channel| && forall i :: 0 <= i < |channel| ==> (InCore(channel[i]); channel[i].Now() == ss[i])
    }

    lemma NowOne(rule: Resolution.Rule, ss: seq<Settings>, i: nat)
      requires Sound(rule) && NowAre(ss) && i < |channel|
      ensures i < |ss| && channel[i].Now() == ss[i] && ss[i].Valid() && AllValid(h, ss)
      ensures channel[i].side.channelType == ss[i].t && channel[i].side.intensity[..] == ss[i].intensity
    {
      hide Resolution.Resolutions, Resolution.ListsHeld;
      forall k | 0 <= k < |channel| ensures ss[k].Valid() {
        channel[k].NowValid();
      }
    }

    /** The missing bands of one channel. */
    method RestoreOne(random: nat, ghost rule: Resolution.Rule, ghost ss: seq<Settings>, ghost xs: seq<Transform.Block>,
                      subframe: nat, i: nat)
      returns (r: nat, ok: bool)
      requires Sound(rule) && NowAre(ss) && AllValid(h, ss) && i < |channel| && i < |ss| && subframe < SUBFRAMES
      requires h.Accepted() && (h.BandsOrdered() || h.bandsPerHfrGroup == 0) && tables.Valid() && RowIs(subframe, xs)
      modifies Row(subframe)
      ensures Sound(rule) && NowAre(ss)
      ensures ok == (ss[i].t.StereoSecondary? || !BadLayout(h))
      ensures r == RandomNext(h, ss[i], random)
      ensures ok && Restorable(h) ==>
        i < |xs| && RowIs(subframe, xs[i := Restored(h, tables.conversion, ss[i], xs[i], random)])
    {
      hide *;
      Present(rule);
      RowsApart(rule);
      SoundOne(rule, i);
      NowOne(rule, ss, i);
      RowDistinct(rule, i, subframe);
      RowParts(subframe, xs);
      r, ok := channel[i].Restore(h, rule, athCurve, tables, random, subframe);
      NowOne(rule, ss, i);
      if ok && Restorable(h) {
        RowParts(subframe, xs[i := Restored(h, tables.conversion, ss[i], xs[i], random)]);
      }
    }

    /** The missing bands of all channels. */
    method RestoreAll(random: nat, ghost rule: Resolution.Rule, ghost ss: seq<Settings>, ghost xs: seq<Transform.Block>,
                      subframe: nat)
      returns (r: nat, ok: bool)
      requires Sound(rule) && NowAre(ss) && AllValid(h, ss) && |ss| == |channel| == |xs| == h.channels && subframe < SUBFRAMES
      requires h.Accepted() && (h.BandsOrdered() || h.bandsPerHfrGroup == 0) && tables.Valid() && RowIs(subframe, xs)
      modifies Row(subframe)
      ensures Sound(rule) && NowAre(ss) && ok == !BadLayout(h) && (ok ==> Restorable(h))
      ensures ok ==>
        var n := RestoredUpTo(h, tables.conversion, ss, xs, random, h.channels);
        r == n.random && RowIs(subframe, n.spectra)
    {
      hide *;
      r, ok := random, true;
      Present(rule);
      RowsApart(rule);
      FirstIn(rule, ss);
      RestorableIs(h);
      if Restorable(h) {
        RestoredStart(h, tables.conversion, ss, xs, random);
        assert [] + xs[0..] == xs;
      }
      for i := 0 to |channel|
        invariant Sound(rule) && NowAre(ss) && (i > 0 ==> !BadLayout(h)) && (i == 0 ==> RowIs(subframe, xs))
        invariant Restorable(h) ==>
          var n := RestoredUpTo(h, tables.conversion, ss, xs, random, i);
          r == n.random && |n.spectra| == i && RowIs(subframe, n.spectra + xs[i..])
      {
        ghost var now := xs;
        if Restorable(h) {
          now := RestoredUpTo(h, tables.conversion, ss, xs, random, i).spectra + xs[i..];
          RestoredNext(h, tables.conversion, ss, xs, random, i);
        }
        r, ok := RestoreOne(r, rule, ss, now, subframe, i);
        if !ok {
          return;
        }
      }
      if Restorable(h) {
        ghost var n := RestoredUpTo(h, tables.conversion, ss, xs, random, h.channels);
        assert n.spectra + xs[h.channels..] == n.spectra;
      }
      ok := true;
    }

    lemma FirstIn(rule: Resolution.Rule, ss: seq<Settings>)
      requires Sound(rule) && NowAre(ss)
      ensures |ss| == |channel| > 0 && !ss[0].t.StereoSecondary? && SUBFRAMES == 8
    {
      FirstNotSecondary(h);
    }

    /** A pair shares the stereo bands of its first channel. */
    method StereoOne(ghost rule: Resolution.Rule, ghost ss: seq<Settings>, ghost ys: seq<Transform.Block>, subframe: nat, i: nat)
      requires Sound(rule) && NowAre(ss) && AllValid(h, ss) && |ss| == |channel| == |ys| == h.channels && subframe < SUBFRAMES
      requires i + 1 < |channel| && |tables.ratio| == 16 && RowIs(subframe, ys)
      modifies Row(subframe)
      ensures Sound(rule) && NowAre(ss)
      ensures RowIs(subframe, Shared(h, tables.ratio, ss, subframe, ys, i + 1))
    {
      hide *;
      Present(rule);
      RowsApart(rule);
      NowOne(rule, ss, i);
      NowOne(rule, ss, i + 1);
      RowDistinct(rule, i, subframe);
      RowDistinct(rule, i + 1, subframe);
      RowParts(subframe, ys);
      SharedIs(h, tables.ratio, ss, subframe, ys, i + 1);
      RowParts(subframe, Shared(h, tables.ratio, ss, subframe, ys, i + 1));
      if channel[i].side.channelType.StereoPrimary? {
        IntensityInRange(rule, i + 1, subframe);
        ApplyIntensityStereo(channel[i].spectra[subframe], channel[i + 1].spectra[subframe],
                             tables.ratio[channel[i + 1].side.intensity[subframe]], h.baseBandCount, h.totalBandCount);
        RowParts(subframe, Shared(h, tables.ratio, ss, subframe, ys, i + 1));
      }
    }

    method StereoAll(ghost rule: Resolution.Rule, ghost ss: seq<Settings>, ghost ys: seq<Transform.Block>, subframe: nat)
      requires Sound(rule) && NowAre(ss) && AllValid(h, ss) && |ss| == |channel| == |ys| == h.channels && subframe < SUBFRAMES
      requires |tables.ratio| == 16 && 0 < |channel| && RowIs(subframe, ys)
      modifies Row(subframe)
      ensures Sound(rule) && NowAre(ss)
      ensures RowIs(subframe, Stereo(h, tables.ratio, ss, subframe, ys, h.channels - 1))
    {
      hide *;
      Present(rule);
      RowsApart(rule);
      StereoStart(h, tables.ratio, ss, subframe, ys);
      for i := 0 to |channel| - 1
        invariant Sound(rule) && NowAre(ss)
        invariant RowIs(subframe, Stereo(h, tables.ratio, ss, subframe, ys, i))
      {
        StereoNext(h, tables.ratio, ss, subframe, ys, i + 1);
        StereoOne(rule, ss, Stereo(h, tables.ratio, ss, subframe, ys, i), subframe, i);
      }
    }

    lemma IntensityInRange(rule: Resolution.Rule, i: nat, subframe: nat)
      requires Sound(rule) && i < |channel| && subframe < SUBFRAMES
      ensures subframe < channel[i].side.intensity.Length && channel[i].side.intensity[subframe] < 16
    {
      hide FrameChannel.Core, FrameChannel.Settled;
    }

    lemma Present(rule: Resolution.Rule)
      requires Sound(rule)
      ensures forall o :: o in AllSignals() ==> o !in Cores() && o !in Sides()
      ensures allocated(Cores()) && allocated(Sides()) && allocated(AllSignals())
      ensures h.Accepted() && tables.Valid() && |tables.ratio| == 16 && h.totalBandCount <= 128 && |channel| == h.channels
    {
    }

    // ---------- step 4: the inverse transform ----------

    /** Carries and waves of all channels are those of runs from cs over the columns of yss. */
    ghost predicate Playing(cs: seq<Transform.Block>, yss: seq<seq<Transform.Block>>)
      reads Output()
    {
      |cs| == |channel| == h.channels && Rows(h, yss)
      && forall i :: 0 <= i < |channel| ==> (InOutput(channel[i]); channel[i].Plays(mdct, cs[i], Column(yss, i)))
    }

    lemma InOutput(c: FrameChannel)
      requires c in channel
      ensures c.Waves() <= Output() && (forall w :: w in c.wave ==> w in Output()) && c.buffers.imdctPrevious in Output()
    {
      assert forall w :: w in c.wave ==> w in c.Waves();
      assert c.buffers.imdctPrevious in c.Waves();
    }

    lemma PlayingParts(cs: seq<Transform.Block>, yss: seq<seq<Transform.Block>>)
      ensures Playing(cs, yss) <==>
        |cs| == |channel| == h.channels && Rows(h, yss)
        && forall i :: 0 <= i < |channel| ==> channel[i].Plays(mdct, cs[i], Column(yss, i))
    {
      hide FrameChannel.Plays, Column;
    }

    /** The arrays one channel transforms with are none of the others'. */
    lemma DeskApart(rule: Resolution.Rule, i: nat, s: nat)
      requires Sound(rule) && i < |channel| && s < SUBFRAMES
      ensures s < |channel[i].spectra| && s < |channel[i].wave|
      ensures channel[i].spectra[s] in Row(s) && channel[i].wave[s] in Output()
      ensures channel[i].buffers.temp in Temps() && channel[i].buffers.imdctPrevious in Output()
      ensures Separate(channel[i].spectra, channel[i].wave, channel[i].buffers)
      ensures forall k :: 0 <= k < |channel| && k != i ==>
        channel[i].spectra[s] !in channel[k].Signals() && channel[i].wave[s] !in channel[k].Signals()
        && channel[i].buffers.temp !in channel[k].Signals() && channel[i].buffers.imdctPrevious !in channel[k].Signals()
      ensures forall k :: 0 <= k < |channel| ==>
        s < |channel[k].spectra| && channel[k].spectra[s] in channel[k].Signals()
        && (forall w :: w in channel[k].wave ==> w in channel[k].Signals())
        && channel[k].buffers.imdctPrevious in channel[k].Signals()
    {
      hide FrameChannel.Core, FrameChannel.Settled;
      InOutput(channel[i]);
      assert channel[i].wave[s] in channel[i].wave;
      forall k | 0 <= k < |channel|
        ensures s < |channel[k].spectra| && channel[k].spectra[s] in channel[k].Signals()
        ensures (forall w :: w in channel[k].wave ==> w in channel[k].Signals())
        ensures channel[k].buffers.imdctPrevious in channel[k].Signals()
        ensures k != i ==> channel[i].Signals() !! channel[k].Signals()
      {
        InRepr(k, s);
        if k != i {
          OthersApart(channel[i], channel[k]);
        }
      }
      assert channel[i].buffers.temp in channel[i].Signals() && channel[i].wave[s] in channel[i].Signals();
    }

    /** All channels: every run gets one block longer. */
    method TransformAll(ghost rule: Resolution.Rule, ghost ys: seq<Transform.Block>, ghost cs: seq<Transform.Block>,
                        ghost yss: seq<seq<Transform.Block>>, subframe: nat)
      requires Sound(rule) && subframe < SUBFRAMES && RowIs(subframe, ys) && Playing(cs, yss) && |yss| == subframe
      modifies Row(subframe), Output(), Temps()
      ensures Sound(rule) && |ys| == h.channels && Playing(cs, yss + [ys])
    {
      hide *;
      Present(rule);
      RowsApart(rule);
      SoundSize(rule);
      RowParts(subframe, ys);
      PlayingParts(cs, yss);
      for i := 0 to |channel|
        invariant Sound(rule)
        invariant forall k :: 0 <= k < i ==> channel[k].Plays(mdct, cs[k], Column(yss, k) + [ys[k]])
        invariant forall k :: i <= k < |channel| ==>
          channel[k].Plays(mdct, cs[k], Column(yss, k))
          && subframe < |channel[k].spectra| && channel[k].spectra[subframe][..] == ys[k]
      {
        DeskApart(rule, i, subframe);
        channel[i].InverseTransform(mdct, subframe, cs[i], Column(yss, i), ys[i]);
      }
      ColumnsExtend(yss, ys);
      PlayingParts(cs, yss + [ys]);
    }

    lemma ColumnsExtend(yss: seq<seq<Transform.Block>>, ys: seq<Transform.Block>)
      requires Rows(h, yss) && |ys| == h.channels
      ensures Rows(h, yss + [ys])
      ensures forall k :: 0 <= k < h.channels ==> Column(yss + [ys], k) == Column(yss, k) + [ys[k]]
    {
    }

    /** Steps 3 and 4 of one subframe. */
    method TransformSubframe(random: nat, ghost rule: Resolution.Rule, ghost ss: seq<Settings>, ghost xs: seq<Transform.Block>,
                             ghost cs: seq<Transform.Block>, ghost yss: seq<seq<Transform.Block>>, subframe: nat)
      returns (r: nat, ok: bool)
      requires Sound(rule) && NowAre(ss) && AllValid(h, ss) && |ss| == |channel| == |xs| == h.channels && subframe < SUBFRAMES
      requires h.Accepted() && (h.BandsOrdered() || h.bandsPerHfrGroup == 0) && tables.Valid() && RowIs(subframe, xs)
      requires Playing(cs, yss) && |yss| == subframe
      modifies Row(subframe), Output(), Temps()
      ensures Sound(rule) && NowAre(ss) && ok == !BadLayout(h) && (ok ==> Restorable(h))
      ensures ok ==>
        var n := SubframeSpectra(h, tables, ss, subframe, xs, random);
        r == n.random && Playing(cs, yss + [n.spectra])
    {
      hide *;
      Present(rule);
      RowsApart(rule);
      FirstIn(rule, ss);
      r, ok := RestoreAll(random, rule, ss, xs, subframe);
      if !ok {
        return;
      }
      SubframeParts(h, tables, ss, subframe, xs, random);
      ghost var n := RestoredUpTo(h, tables.conversion, ss, xs, random, h.channels);
      if h.stereoBandCount > 0 {
        StereoAll(rule, ss, n.spectra, subframe);
      }
      TransformAll(rule, SubframeSpectra(h, tables, ss, subframe, xs, random).spectra, cs, yss, subframe);
    }

    /**
      Steps 3 and 4 of a frame: the carries and waves of all channels, and the random state, or an
      index outside its array exactly for a bad band layout.
     */
    method DecodeBlockTransform(random: nat, ghost rule: Resolution.Rule, ghost ss: seq<Settings>,
                                ghost xss: seq<seq<Transform.Block>>, ghost cs: seq<Transform.Block>)
      returns (r: nat, ok: bool)
      requires Sound(rule) && NowAre(ss) && AllValid(h, ss) && |ss| == |channel| == h.channels
      requires h.Accepted() && (h.BandsOrdered() || h.bandsPerHfrGroup == 0) && tables.Valid()
      requires |xss| == SUBFRAMES && Rows(h, xss) && Playing(cs, [])
      requires forall s :: 0 <= s < SUBFRAMES ==> RowIs(s, xss[s])
      modifies AllSignals()
      ensures Sound(rule) && NowAre(ss) && ok == !BadLayout(h) && (ok ==> Restorable(h))
      ensures ok ==>
        var out := FrameSpectra(h, tables, ss, xss, random, SUBFRAMES);
        r == out.random && Playing(cs, out.spectra)
    {
      hide *;
      r, ok := random, true;
      Present(rule);
      RowsApart(rule);
      FirstIn(rule, ss);
      RestorableIs(h);
      if Restorable(h) {
        FrameStart(h, tables, ss, xss, random);
      }
      for subframe := 0 to SUBFRAMES
        invariant Sound(rule) && NowAre(ss) && (subframe > 0 ==> !BadLayout(h)) && (subframe == 0 ==> Playing(cs, []))
        invariant forall s :: subframe <= s < SUBFRAMES ==> RowIs(s, xss[s])
        invariant Restorable(h) ==>
          var out := FrameSpectra(h, tables, ss, xss, random, subframe);
          r == out.random && |out.spectra| == subframe && Playing(cs, out.spectra)
      {
        ghost var yss := [];
        if Restorable(h) {
          yss := FrameSpectra(h, tables, ss, xss, random, subframe).spectra;
          FrameNext(h, tables, ss, xss, random, subframe);
        }
        RowLength(subframe, xss);
        r, ok := TransformSubframe(r, rule, ss, xss[subframe], cs, yss, subframe);
        if !ok {
          return;
        }
      }
      ok := true;
    }

    lemma RowLength(s: nat, xss: seq<seq<Transform.Block>>)
      requires s < |xss| && Rows(h, xss)
      ensures |xss[s]| == h.channels
    {
    }

    // ---------- runs ----------

    ghost function SetupNow(): Setup
      reads cipherTable
    {
      Setup(h, athCurve, tables, cipherTable[..])
    }

    /** The carries now are where the next frame starts. */
    lemma Resume(cs: seq<Transform.Block>, yss: seq<seq<Transform.Block>>, next: seq<Transform.Block>)
      requires Playing(cs, yss) && mdct.WellFormed() && |next| == |cs|
      requires forall k :: 0 <= k < |next| ==> next[k] == Transform.Run(mdct, cs[k], Column(yss, k)).carry
      ensures Playing(next, [])
    {
      PlayingParts(cs, yss);
      hide Playing, Transform.Run, Rows;
      assert Rows(h, []) by {
        NoRows();
      }
      forall k | 0 <= k < |channel| ensures channel[k].Plays(mdct, next[k], Column([], k)) {
        Transform.RunEmpty(mdct, next[k]);
      }
      PlayingParts(next, []);
    }

    lemma NoRows()
      ensures Rows(h, [])
    {
    }

    /** The waves of the frame just decoded go behind the earlier ones. */
    method CollectWaves(before: seq<seq<seq<real>>>, ghost cs: seq<Transform.Block>, ghost yss: seq<seq<Transform.Block>>)
      returns (waves: seq<seq<seq<real>>>)
      requires mdct.WellFormed() && |before| == |channel| && Playing(cs, yss) && |yss| == SUBFRAMES
      requires forall i :: 0 <= i < |channel| ==> |channel[i].wave| == SUBFRAMES
      ensures |waves| == |channel| == |cs|
      ensures forall i :: 0 <= i < |channel| ==> waves[i] == before[i] + Transform.Run(mdct, cs[i], Column(yss, i)).waves
    {
      PlayingParts(cs, yss);
      hide Playing, Transform.Run, Column;
      waves := [];
      for i := 0 to |channel|
        invariant |waves| == i
        invariant forall k :: 0 <= k < i ==> waves[k] == before[k] + Transform.Run(mdct, cs[k], Column(yss, k)).waves
      {
        var blocks: seq<seq<real>> := [];
        for s := 0 to SUBFRAMES
          invariant blocks == Transform.Run(mdct, cs[i], Column(yss, i)).waves[..s]
        {
          blocks := blocks + [channel[i].wave[s][..]];
        }
        waves := waves + [before[i] + blocks];
      }
    }

    lemma Ready()
      requires Valid()
      ensures SetupNow() == Setup(h, athCurve, tables, cipherTable[..]) && SetupNow().Valid()
      ensures Shape() && h.Accepted() && |athCurve| == 128 && tables.Valid() && mdct.WellFormed() && |channel| == h.channels && cipherTable.Length == 256
      ensures AllSignals() <= Owned() && Spectra() <= Owned() && Cores() <= Owned() && Output() <= Owned()
      ensures cipherTable !in Owned() && Output() !! Cores() && Output() !! Sides() && Output() !! Spectra()
      ensures allocated(Owned()) && allocated(Cores()) && allocated(Sides()) && allocated(Spectra()) && allocated(Output())
      ensures forall i :: 0 <= i < |channel| ==> |channel[i].wave| == SUBFRAMES
    {
      Areas();
      SignalsOwned();
      hide FrameChannel.Core, FrameChannel.Settled;
    }

    /** The channels hold the waves of one block. */
    ghost predicate WavesAre(waves: seq<seq<Transform.Block>>)
      reads Output()
    {
      |waves| == |channel|
      && forall k :: 0 <= k < |waves| ==>
           (InOutput(channel[k]);
            |waves[k]| == |channel[k].wave| == SUBFRAMES
            && forall i :: 0 <= i < SUBFRAMES ==> channel[k].wave[i][..] == waves[k][i])
    }

    lemma WaveOne(waves: seq<seq<Transform.Block>>, k: nat, i: nat)
      requires WavesAre(waves) && k < |channel| && i < SUBFRAMES
      ensures |waves| == |channel| && |waves[k]| == SUBFRAMES && i < |channel[k].wave| && channel[k].wave[i] in Output()
      ensures channel[k].wave[i].Length == 128 && channel[k].wave[i][..] == waves[k][i]
    {
      InOutput(channel[k]);
      assert |channel[k].wave[i][..]| == |waves[k][i]|;
    }

    lemma PlayedWaves(cs: seq<Transform.Block>, yss: seq<seq<Transform.Block>>)
      requires Playing(cs, yss) && |yss| == SUBFRAMES && mdct.WellFormed()
      requires forall k :: 0 <= k < |channel| ==> |channel[k].wave| == SUBFRAMES
      ensures WavesAre(NextWaves(mdct, cs, yss)) && |channel| == |cs| == h.channels
    {
      PlayingParts(cs, yss);
      hide Transform.Run, Column;
    }

    /** One sample of every channel. */
    method ReadInstant(samples: array<real>, idx: nat, ghost waves: seq<seq<Transform.Block>>, i: nat, j: nat)
      requires WavesAre(waves) && samples !in Output() && i < SUBFRAMES && j < 128 && idx + |channel| <= samples.Length
      modifies samples
      ensures WavesAre(waves) && samples[..idx + |channel|] == old(samples[..idx]) + Instant(waves, i, j)
    {
      hide *;
      ghost var before, now := samples[..idx], Instant(waves, i, j);
      WaveCount(waves);
      for k := 0 to |channel|
        invariant WavesAre(waves) && k <= |now| && samples[..idx + k] == before + now[..k]
      {
        WaveOne(waves, k, i);
        InstantIs(waves, i, j, k);
        samples[idx + k] := channel[k].wave[i][j];
        assert samples[..idx + k + 1] == samples[..idx + k] + [now[k]];
      }
      assert now[..|channel|] == now;
    }

    lemma WaveCount(waves: seq<seq<Transform.Block>>)
      requires WavesAre(waves)
      ensures |waves| == |channel|
    {
    }

    lemma InstantIs(waves: seq<seq<Transform.Block>>, i: nat, j: nat, k: nat)
      requires k < |waves| && j < 128 && i < |waves[k]|
      ensures |Instant(waves, i, j)| == |waves| && Instant(waves, i, j)[k] == waves[k][i][j]
    {
    }

    /** The samples of the block just decoded, one of every channel at a time. */
    method ReadSamples(samples: array<real>, ghost waves: seq<seq<Transform.Block>>)
      requires WavesAre(waves) && samples.Length == |waves| * 128 * SUBFRAMES && samples !in Output()
      modifies samples
      ensures WavesAre(waves) && samples[..] == Interleave(waves, SUBFRAMES)
    {
      hide *;
      Started(waves);
      WaveCount(waves);
      var idx := 0;
      for i := 0 to SUBFRAMES
        invariant WavesAre(waves) && idx == |Interleave(waves, i)| <= samples.Length && samples[..idx] == Interleave(waves, i)
      {
        NoSamples(waves, i);
        for j := 0 to 128
          invariant WavesAre(waves) && idx == |Interleave(waves, i)| + |BlockSamples(waves, i, j)| <= samples.Length
          invariant samples[..idx] == Interleave(waves, i) + BlockSamples(waves, i, j)
        {
          NextInstant(waves, i, j);
          ReadInstant(samples, idx, waves, i, j);
          idx := idx + |channel|;
        }
        NextBlock(waves, i);
      }
      assert samples[..] == samples[..idx];
    }

    lemma Started(waves: seq<seq<Transform.Block>>)
      ensures Interleave(waves, 0) == [] && SUBFRAMES == 8
      ensures |Interleave(waves, SUBFRAMES)| == |waves| * 128 * SUBFRAMES
    {
    }

    lemma NoSamples(waves: seq<seq<Transform.Block>>, i: nat)
      ensures BlockSamples(waves, i, 0) == [] && Interleave(waves, i) + [] == Interleave(waves, i)
    {
    }

    lemma NextBlock(waves: seq<seq<Transform.Block>>, i: nat)
      ensures Interleave(waves, i + 1) == Interleave(waves, i) + BlockSamples(waves, i, 128)
    {
      hide BlockSamples;
    }

    lemma NextInstant(waves: seq<seq<Transform.Block>>, i: nat, j: nat)
      requires j < 128 && i < SUBFRAMES
      ensures BlockSamples(waves, i, j + 1) == BlockSamples(waves, i, j) + Instant(waves, i, j)
      ensures |BlockSamples(waves, i, j + 1)| == |BlockSamples(waves, i, j)| + |waves|
      ensures |Interleave(waves, i)| + |BlockSamples(waves, i, j)| + |waves| <= |waves| * 128 * SUBFRAMES
    {
      Fits(waves, i);
      assert |waves| * j + |waves| == |waves| * (j + 1) <= |waves| * 128;
    }

    lemma Fits(waves: seq<seq<Transform.Block>>, i: nat)
      requires i < SUBFRAMES
      ensures |Interleave(waves, i)| + |waves| * 128 <= |waves| * 128 * SUBFRAMES
    {
      assert |waves| * 128 * i + |waves| * 128 == |waves| * 128 * (i + 1) <= |waves| * 128 * SUBFRAMES;
    }

    /** Silence behind every channel; the side information of the last frame stays. */
    method DecodeReset() returns (random: nat)
      requires Valid()
      modifies Output()
      ensures Valid() && random == DEFAULT_RANDOM && Playing(SilentCarries(h), [])
    {
      hide *;
      Ready();
      CarriesApart();
      for i := 0 to |channel|
        invariant Valid()
        invariant forall k :: 0 <= k < i ==> channel[k].buffers.imdctPrevious[..] == Transform.Silence()
      {
        channel[i].buffers.DecodeReset();
      }
      SilenceBehind();
      random := DEFAULT_RANDOM;
    }

    lemma CarriesApart()
      requires Valid()
      ensures forall i :: 0 <= i < |channel| ==>
        channel[i].buffers.Valid() && channel[i].buffers.imdctPrevious in Output() && channel[i].buffers.imdctPrevious.Length == 128
      ensures forall i, k :: 0 <= i < |channel| && 0 <= k < |channel| && i != k ==>
        channel[i].buffers.imdctPrevious != channel[k].buffers.imdctPrevious
    {
      BuiltIs();
      hide FrameChannel.Core, FrameChannel.Valid;
      forall i | 0 <= i < |channel|
        ensures channel[i].buffers.imdctPrevious in Output() && channel[i].buffers.imdctPrevious in channel[i].Repr()
      {
        InOutput(channel[i]);
      }
    }

    lemma SilenceBehind()
      requires Valid()
      requires forall k :: 0 <= k < |channel| ==> channel[k].buffers.imdctPrevious[..] == Transform.Silence()
      ensures Playing(SilentCarries(h), [])
    {
      hide FrameChannel.Valid, FrameChannel.Repr, FrameChannel.Core, Playing, Transform.Run;
      forall k | 0 <= k < |channel| ensures channel[k].Plays(mdct, SilentCarries(h)[k], Column([], k)) {
        Transform.RunEmpty(mdct, SilentCarries(h)[k]);
      }
      PlayingParts(SilentCarries(h), []);
    }

    /** One frame: steps 1 to 4, and the waves it adds. */
    method DecodeBlock(data: array<byte>, random: nat, before: seq<seq<seq<real>>>, ghost st: State, ghost now: seq<Transform.Block>)
      returns (res: Outcome, r: nat, waves: seq<seq<seq<real>>>, ghost next: seq<Transform.Block>)
      requires Valid() && data != cipherTable && data !in Owned() && SidesShape(h, st.sides) && Snap(st.sides)
      requires |before| == h.channels && Playing(now, []) && random == st.random && SetupNow().Valid()
      modifies data, Owned()
      ensures Valid() && res == OutcomeIn(SetupNow(), old(data[..]), st)
      ensures !res.BrokenOff? ==>
        Snap(NextState(SetupNow(), old(data[..]), st).sides) && r == NextState(SetupNow(), old(data[..]), st).random
        && Playing(next, [])
      ensures !res.Accepted? ==> waves == before && next == now
      ensures res.Accepted? ==>
        var out := FrameOutput(SetupNow(), old(data[..]), st);
        mdct.WellFormed() && |waves| == |next| == |now| == h.channels && Playing(now, out.spectra)
        && next == NextCarries(mdct, now, out.spectra) && |out.spectra| == SUBFRAMES
        && forall k :: 0 <= k < h.channels ==>
             var run := Transform.Run(mdct, now[k], Column(out.spectra, k));
             next[k] == run.carry && waves[k] == before[k] + run.waves
    {
      hide *;
      Ready();
      ghost var u, bytes := SetupNow(), data[..];
      StateParts(u, bytes, st);
      PlayingParts(now, []);
      waves, next, r := before, now, random;
      ghost var rule;
      res, rule := DecodeBlockUnpack(data, st.sides);
      if !res.Accepted? {
        return;
      }
      OutputParts(u, bytes, st);
      ghost var f := InputOf(h, athCurve, tables, data[..], st.sides);
      HoldingIs(f);
      Present(rule);
      var ok;
      r, ok := DecodeBlockTransform(random, rule, f.settings, f.spectra, now);
      SoundIs(rule);
      if !ok {
        res := BrokenOff;
        return;
      }
      ghost var out := FrameSpectra(h, tables, f.settings, f.spectra, random, SUBFRAMES);
      next := NextCarries(mdct, now, out.spectra);
      waves := CollectWaves(before, now, out.spectra);
      Resume(now, out.spectra, next);
    }

    /** One frame of a run: what is played so far stays in step with the frames so far. */
    method NextFrame(frame: seq<byte>, random: nat, before: seq<seq<seq<real>>>, ghost frames: seq<seq<byte>>, ghost start: State,
                     ghost cs: seq<Transform.Block>, ghost rest: seq<seq<byte>>, ghost st: State,
                     ghost now: seq<Transform.Block>, ghost done: seq<seq<Transform.Block>>)
      returns (res: Outcome, r: nat, waves: seq<seq<seq<real>>>, ghost next: seq<Transform.Block>,
               ghost more: seq<seq<Transform.Block>>)
      requires Valid() && SidesShape(h, st.sides) && Snap(st.sides) && Playing(now, []) && random == st.random
      requires |before| == |done| == h.channels && |rest| > 0 && rest[0] == frame
      requires Tally(SetupNow(), mdct, frames, start, cs, rest, st, now, done, before)
      modifies Owned()
      ensures Valid() && SetupNow() == old(SetupNow()) && SetupNow().Valid() && SidesShape(SetupNow().h, st.sides)
      ensures res == OutcomeIn(SetupNow(), frame, st)
      ensures res.BrokenOff? ==> waves == before
      ensures !res.BrokenOff? ==>
        Snap(NextState(SetupNow(), frame, st).sides) && r == NextState(SetupNow(), frame, st).random && Playing(next, [])
        && |waves| == |more| == h.channels
        && Tally(SetupNow(), mdct, frames, start, cs, rest[1..], NextState(SetupNow(), frame, st), next, more, waves)
    {
      hide *;
      Ready();
      var data := new byte[|frame|](k requires 0 <= k < |frame| => frame[k]);
      assert data[..] == frame;
      res, r, waves, next := DecodeBlock(data, random, before, st, now);
      more := done;
      if res.Accepted? {
        more := MoreBlocks(SetupNow(), frame, st, done);
        TallyAccepted(SetupNow(), mdct, frames, start, cs, rest, st, now, done, before, next, more, waves);
      } else if !res.BrokenOff? {
        TallySkip(SetupNow(), mdct, frames, start, cs, rest, st, now, done, before);
      }
    }

    /**
      Any sequence of frames, good or bad, has the outcomes of the run, up to the first that breaks
      off; the waves of every channel are one run of the inverse transform over the restored spectra
      of all accepted frames; and whatever the frames are, the decoder stays valid.
     */
    method DecodeFrames(frames: seq<seq<byte>>, random: nat, ghost sides: seq<SideState>, ghost cs: seq<Transform.Block>)
      returns (outcomes: seq<Outcome>, waves: seq<seq<seq<real>>>, r: nat)
      requires Valid() && SidesShape(h, sides) && Snap(sides) && Playing(cs, [])
      modifies Owned()
      ensures Valid()
      ensures outcomes == Outcomes(h, athCurve, cipherTable[..], frames, sides)
      ensures WavesOf(SetupNow(), mdct, frames, State(sides, random), cs, waves)
      ensures BrokenOff !in outcomes ==>
        var end := RunState(SetupNow(), frames, State(sides, random));
        Snap(end.sides) && r == end.random
    {
      hide *;
      Ready();
      ghost var u, start := SetupNow(), State(sides, random);
      PlayingParts(cs, []);
      outcomes, r, waves := [], random, seq(h.channels, _ => []);
      ghost var st, now, done := start, cs, NoBlocks(u);
      TallyStart(u, mdct, frames, start, cs, waves);
      NoFrames(h, athCurve, u.cipher, sides);
      assert frames[0..] == frames;
      for i := 0 to |frames|
        invariant Valid() && SetupNow() == u && SidesShape(h, st.sides) && Snap(st.sides) && BrokenOff !in outcomes && r == st.random
        invariant Playing(now, []) && |waves| == |done| == h.channels
        invariant outcomes + Outcomes(h, athCurve, u.cipher, frames[i..], st.sides)
               == Outcomes(h, athCurve, u.cipher, frames, sides)
        invariant Tally(u, mdct, frames, start, cs, frames[i..], st, now, done, waves)
      {
        ghost var rest := frames[i..];
        assert rest[1..] == frames[i + 1..] && rest[0] == frames[i];
        OutcomesNext(h, athCurve, u.cipher, rest, st.sides);
        StateParts(u, rest[0], st);
        ghost var played := waves;
        var res;
        ghost var now', done';
        res, r, waves, now', done' := NextFrame(frames[i], r, waves, frames, start, cs, rest, st, now, done);
        outcomes := outcomes + [res];
        if res.BrokenOff? {
          TallyEnds(u, mdct, frames, start, cs, rest, st, now, done, played);
          return;
        }
        now, done, st := now', done', NextState(u, rest[0], st);
      }
      NoFrames(h, athCurve, u.cipher, st.sides);
      TallyEnds(u, mdct, frames, start, cs, frames[|frames|..], st, now, done, waves);
    }
  }
}

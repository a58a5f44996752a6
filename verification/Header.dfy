/**
  The checks of an HCA header and the channel types it determines.
 */
module Header {
  import opened Channel
  import opened Common
  import opened Hfr

  const SUBFRAME_SAMPLES: nat := 128

  /** The header fields the decoder depends on; byte-sized fields may hold any value before the checks. */
  datatype Params = Params(version: nat, channels: nat, frameSize: nat, minResolution: nat, maxResolution: nat,
                           trackCount: nat, channelConfig: nat, totalBandCount: nat, baseBandCount: nat,
                           stereoBandCount: nat, bandsPerHfrGroup: nat, msStereo: nat)
  {
    /** A track count of zero means one track. */
    function Tracks(): nat { if trackCount == 0 then 1 else trackCount }

    /** Unsigned arithmetic: more coded bands than bands wraps around. */
    function HfrGroupCount(): nat
    {
      HeaderCeil2((totalBandCount - baseBandCount - stereoBandCount) % WORD, bandsPerHfrGroup)
    }

    predicate Accepted()
    {
      1 <= channels <= 16 && 8 <= frameSize <= 0xFFFF
      && (if version <= HCA_VERSION_200 then minResolution == 1 && maxResolution == 15
          else minResolution <= maxResolution <= 15)
      && Tracks() <= channels
      && totalBandCount <= SUBFRAME_SAMPLES && baseBandCount <= SUBFRAME_SAMPLES && stereoBandCount <= SUBFRAME_SAMPLES
      && baseBandCount + stereoBandCount <= SUBFRAME_SAMPLES && bandsPerHfrGroup <= SUBFRAME_SAMPLES && msStereo == 0
    }

    /** Not checked: the coded bands are among all bands. */
    predicate BandsOrdered() { baseBandCount + stereoBandCount <= totalBandCount }
  }

  /** An accepted header has a usable number of groups exactly when its bands are ordered or it has no groups. */
  lemma GroupsInRange(h: Params)
    requires h.Accepted()
    ensures h.HfrGroupCount() <= SUBFRAME_SAMPLES <==> h.bandsPerHfrGroup == 0 || h.BandsOrdered()
    ensures h.BandsOrdered() && h.bandsPerHfrGroup > 0 ==>
      h.HfrGroupCount() == HeaderCeil2(h.totalBandCount - h.baseBandCount - h.stereoBandCount, h.bandsPerHfrGroup)
      && h.baseBandCount + h.stereoBandCount + h.HfrGroupCount() <= h.totalBandCount
  {
    var d: int := h.totalBandCount - h.baseBandCount - h.stereoBandCount;
    if h.bandsPerHfrGroup > 0 {
      CeilCovers(d % WORD, h.bandsPerHfrGroup);
      WrappedDifference(d);
      if d < 0 {
        FilledIsProduct(h.HfrGroupCount(), h.bandsPerHfrGroup);
        if h.HfrGroupCount() <= SUBFRAME_SAMPLES {
          SmallProduct(h.HfrGroupCount(), h.bandsPerHfrGroup);
          assert false;
        }
      }
    }
  }

  lemma GroupCountIsWord(h: Params)
    ensures h.HfrGroupCount() < WORD
  {
    var d := (h.totalBandCount - h.baseBandCount - h.stereoBandCount) % WORD;
    if h.bandsPerHfrGroup > 0 {
      CeilCovers(d, h.bandsPerHfrGroup);
    }
  }

  lemma SmallProduct(a: nat, b: nat)
    requires a <= 128 && b <= 128
    ensures a * b <= 0x4000
  {
    assert a * b <= a * 128;
  }

  /** The check is missing for a header whose bands are given one by one. */
  lemma UnorderedBandsAccepted()
    ensures var h := Params(0x0200, 1, 8, 1, 15, 1, 0, 10, 20, 0, 1, 0);
      h.Accepted() && !h.BandsOrdered() && h.HfrGroupCount() > SUBFRAME_SAMPLES
  {
    var h := Params(0x0200, 1, 8, 1, 15, 1, 0, 10, 20, 0, 1, 0);
    GroupsInRange(h);
  }

  /** The bands of the shorter header: counts less one, and the stereo bands are what base bands leave over. */
  function DecBands(h: Params, total: nat, base: nat, stereoType: nat): Params
  {
    var b := if stereoType == 0 then total + 1 else base + 1;
    h.(totalBandCount := total + 1, baseBandCount := b, stereoBandCount := (total + 1 - b) % WORD, bandsPerHfrGroup := 0)
  }

  /** The shorter header cannot give unordered bands. */
  lemma DecBandsOrdered(h: Params, total: nat, base: nat, stereoType: nat)
    requires total < 256 && base < 256 && DecBands(h, total, base, stereoType).Accepted()
    ensures var d := DecBands(h, total, base, stereoType);
      d.BandsOrdered() && d.baseBandCount + d.stereoBandCount == d.totalBandCount && d.HfrGroupCount() == 0
  {
    var d := DecBands(h, total, base, stereoType);
    var x: int := d.totalBandCount - d.baseBandCount;
    WrappedDifference(x);
  }

  lemma WrappedDifference(x: int)
    requires -0x1000 <= x <= 0x1000
    ensures x % WORD == if x < 0 then x + WORD else x
  {
  }

  // ---------- channel types ----------

  /** Whether a stereo pair starts at position j of a track of n channels. */
  predicate StartsPair(n: nat, config: nat, j: nat)
  {
    2 <= n <= 8
    && (j == 0
        || (n == 4 && config == 0 && j == 2)
        || (n == 5 && config <= 2 && j == 3)
        || (6 <= n <= 8 && j == 4)
        || (n == 8 && j == 6))
  }

  function TypeInTrack(n: nat, config: nat, j: nat): ChannelType
  {
    if StartsPair(n, config, j) then StereoPrimary
    else if j > 0 && StartsPair(n, config, j - 1) then StereoSecondary
    else Discrete
  }

  /** The types of a track by its number of channels; single channels and more than eight have no pairs. */
  lemma TrackTypes(config: nat)
    ensures TrackOf(2, config) == Pair()
    ensures TrackOf(3, config) == Pair() + [Discrete]
    ensures TrackOf(4, config) == Pair() + if config == 0 then Pair() else [Discrete, Discrete]
    ensures TrackOf(5, config) == Pair() + [Discrete] + if config <= 2 then Pair() else [Discrete, Discrete]
    ensures TrackOf(6, config) == Pair() + [Discrete, Discrete] + Pair()
    ensures TrackOf(7, config) == Pair() + [Discrete, Discrete] + Pair() + [Discrete]
    ensures TrackOf(8, config) == Pair() + [Discrete, Discrete] + Pair() + Pair()
    ensures forall n: nat, j: nat | n < 2 || n > 8 :: TypeInTrack(n, config, j) == Discrete
  {
  }

  function Pair(): seq<ChannelType> { [StereoPrimary, StereoSecondary] }

  function TrackOf(n: nat, config: nat): seq<ChannelType> { seq(n, j requires 0 <= j => TypeInTrack(n, config, j)) }

  /** Tracks one after the other; channels left over and tracks without joint stereo are discrete. */
  function TypeOf(h: Params, i: nat): ChannelType
    requires h.Accepted()
  {
    var n := h.channels / h.Tracks();
    if h.stereoBandCount > 0 && n > 1 && i < Filled(h.Tracks(), n) then TypeInTrack(n, h.channelConfig, i % n) else Discrete
  }

  lemma TracksFit(h: Params)
    requires h.Accepted()
    ensures Filled(h.Tracks(), h.channels / h.Tracks()) <= h.channels
  {
    FilledIsProduct(h.Tracks(), h.channels / h.Tracks());
    assert h.channels == h.channels / h.Tracks() * h.Tracks() + h.channels % h.Tracks();
  }

  /** Neighbours inside a track. */
  lemma Neighbours(n: nat, t: nat, i: nat)
    requires n > 0 && i < Filled(t, n)
    ensures i % n + 1 < n ==> i + 1 < Filled(t, n) && (i + 1) % n == i % n + 1
    ensures i % n > 0 ==> i > 0 && (i - 1) % n == i % n - 1
  {
    var g, j := i / n, i % n;
    Split(i, n);
    if g >= t {
      FilledMonotone(t, g, n);
      assert false;
    }
    FilledMonotone(g + 1, t, n);
    if j + 1 < n {
      GroupOf(g, n, j + 1);
      Split(i + 1, n);
    }
    if j > 0 {
      GroupOf(g, n, j - 1);
      Split(i - 1, n);
    }
  }

  /** Every primary channel is followed by its secondary inside the channels, and every secondary follows a primary. */
  lemma PairsComplete(h: Params, i: nat)
    requires h.Accepted() && i < h.channels
    ensures TypeOf(h, i).StereoPrimary? ==> i + 1 < h.channels && TypeOf(h, i + 1).StereoSecondary?
    ensures TypeOf(h, i).StereoSecondary? ==> i > 0 && TypeOf(h, i - 1).StereoPrimary?
  {
    var n, t := h.channels / h.Tracks(), h.Tracks();
    TracksFit(h);
    hide Params.HfrGroupCount, Filled;
    if h.stereoBandCount > 0 && n > 1 && i < Filled(t, n) {
      Neighbours(n, t, i);
    }
  }

  /** The types of one track, written at its first channel. */
  method WriteTrack(types: array<ChannelType>, first: nat, n: nat, config: nat)
    requires types.Length == 16 && 1 < n && first + n <= 16
    requires forall k :: first <= k < first + n ==> types[k] == Discrete
    modifies types
    ensures forall k :: 0 <= k < 16 ==>
      types[k] == if first <= k < first + n then TypeInTrack(n, config, k - first) else old(types[k])
  {
    if n <= 8 {
      types[first], types[first + 1] := StereoPrimary, StereoSecondary;
    }
    if n == 4 {
      if config == 0 {
        types[first + 2], types[first + 3] := StereoPrimary, StereoSecondary;
      }
    } else if n == 5 {
      if config <= 2 {
        types[first + 3], types[first + 4] := StereoPrimary, StereoSecondary;
      }
    } else if n == 6 || n == 7 {
      types[first + 4], types[first + 5] := StereoPrimary, StereoSecondary;
    } else if n == 8 {
      types[first + 4], types[first + 5] := StereoPrimary, StereoSecondary;
      types[first + 6], types[first + 7] := StereoPrimary, StereoSecondary;
    }
  }

  method InitChannels(h: Params) returns (types: array<ChannelType>)
    requires h.Accepted()
    ensures fresh(types) && types.Length == 16
    ensures forall i :: 0 <= i < h.channels ==> types[i] == TypeOf(h, i)
  {
    types := new ChannelType[16](_ => Discrete);
    var n := h.channels / h.Tracks();
    TracksFit(h);
    if h.stereoBandCount > 0 && n > 1 {
      for t := 0 to h.Tracks()
        invariant TracksWritten(types[..], n, h.channelConfig, t)
      {
        FilledMonotone(t + 1, h.Tracks(), n);
        FilledIsProduct(t, n);
        ghost var before := types[..];
        WriteTrack(types, t * n, n, h.channelConfig);
        TrackWritten(before, types[..], n, h.channelConfig, t);
      }
    }
    hide TypeInTrack;
  }

  /** The types of the first t tracks are in place, the others not yet. */
  ghost predicate TracksWritten(types: seq<ChannelType>, n: nat, config: nat, t: nat)
  {
    |types| == 16 && n > 0
    && (forall i :: Filled(t, n) <= i < 16 ==> types[i] == Discrete)
    && forall i :: 0 <= i < Filled(t, n) && i < 16 ==> types[i] == TypeInTrack(n, config, i % n)
  }

  lemma TrackWritten(before: seq<ChannelType>, after: seq<ChannelType>, n: nat, config: nat, t: nat)
    requires TracksWritten(before, n, config, t) && |after| == 16 && Filled(t + 1, n) <= 16
    requires forall k :: 0 <= k < 16 ==>
      after[k] == if Filled(t, n) <= k < Filled(t, n) + n then TypeInTrack(n, config, k - Filled(t, n)) else before[k]
    ensures TracksWritten(after, n, config, t + 1)
  {
    hide TypeInTrack;
    forall i | Filled(t, n) <= i < Filled(t + 1, n)
      ensures i % n == i - Filled(t, n)
    {
      GroupOf(t, n, i - Filled(t, n));
      Split(i, n);
    }
  }

  /** The bands coded for a channel: a secondary one shares the stereo bands of its primary. */
  function CodedCount(h: Params, t: ChannelType): (n: nat)
    requires h.Accepted()
    ensures n <= SUBFRAME_SAMPLES
  {
    if t.StereoSecondary? then h.baseBandCount else h.baseBandCount + h.stereoBandCount
  }

  /** With stereo bands every track has the types of its size, wherever it stands; without them, and behind the tracks, all is discrete. */
  lemma TypesByTrack(h: Params, g: nat, j: nat)
    requires h.Accepted() && g < h.Tracks() && j < h.channels / h.Tracks()
    ensures var n := h.channels / h.Tracks();
      TypeOf(h, n * g + j) == if h.stereoBandCount > 0 then TypeInTrack(n, h.channelConfig, j) else Discrete
    ensures forall i: nat | i >= h.channels / h.Tracks() * h.Tracks() :: TypeOf(h, i) == Discrete
  {
    var n, t := h.channels / h.Tracks(), h.Tracks();
    FilledIsProduct(g, n);
    FilledIsProduct(t, n);
    FilledMonotone(g + 1, t, n);
    GroupOf(g, n, j);
    Split(Filled(g, n) + j, n);
    assert n * g == g * n && n * t == t * n;
    hide Filled, Params.HfrGroupCount;
  }

  /** The stereo bands are coded once for a pair, in its first channel. */
  lemma PairCounts(h: Params, i: nat)
    requires h.Accepted() && i < h.channels && TypeOf(h, i) == StereoPrimary
    ensures i + 1 < h.channels
    ensures CodedCount(h, TypeOf(h, i)) == CodedCount(h, TypeOf(h, i + 1)) + h.stereoBandCount
    ensures CodedCount(h, TypeOf(h, i + 1)) == h.baseBandCount
  {
    PairsComplete(h, i);
    hide TypeOf, Params.HfrGroupCount;
  }

  /** The checks in their order; the number of channels is checked where it is read. */
  method Validate(h: Params) returns (ok: bool)
    requires 1 <= h.channels <= 16
    ensures ok == h.Accepted()
  {
    if h.frameSize < 8 || h.frameSize > 0xFFFF {
      return false;
    }
    if h.version <= HCA_VERSION_200 {
      if h.minResolution != 1 || h.maxResolution != 15 {
        return false;
      }
    } else {
      if h.minResolution > h.maxResolution || h.maxResolution > 15 {
        return false;
      }
    }
    var tracks := h.trackCount;
    if tracks == 0 {
      tracks := 1;
    }
    if tracks > h.channels {
      return false;
    }
    if h.totalBandCount > SUBFRAME_SAMPLES || h.baseBandCount > SUBFRAME_SAMPLES || h.stereoBandCount > SUBFRAME_SAMPLES
       || h.baseBandCount + h.stereoBandCount > SUBFRAME_SAMPLES || h.bandsPerHfrGroup > SUBFRAME_SAMPLES
    {
      return false;
    }
    ok := h.msStereo == 0;
  }
}

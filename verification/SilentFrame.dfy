/**
  Which headers have frames at all: a silent frame, its checksum included, is accepted under
  every header that is not unusable.
 */
module SilentFrame {
  import opened BitReader
  import opened Bytes
  import opened Channel
  import opened Common
  import opened Frame
  import opened Streams
  import Cipher
  import Coefficients
  import Crc
  import Header
  import Resolution

  /** Nothing but zeros between the sync word and the checksum. */
  predicate Quiet(d: seq<byte>, size: nat)
  {
    4 <= size <= |d| && forall j :: 2 <= j < size - 2 ==> d[j] == 0
  }

  lemma ZeroField(d: seq<byte>, size: nat, bit: nat, n: nat)
    requires Quiet(d, size) && 16 <= bit && bit + n <= 8 * (size - 2) && n <= 9
    ensures FieldAt(d, 8 * size, bit, n) == Field(0, bit + n)
  {
    if n > 0 {
      var k := WindowBytes(n + bit % 8, 8 * size - bit);
      assert n + bit % 8 <= 8 * k && k <= 2;
      assert bit / 8 + k <= size - 2;
      assert Window(d, bit / 8, 0) == 0;
      assert Window(d, bit / 8, 1) == 0;
      assert Window(d, bit / 8, k) == 0;
      NothingLeft(8 * k, bit % 8, n);
    }
  }

  lemma NothingLeft(width: nat, rem: nat, n: nat)
    requires rem < 8 <= width && rem + n <= width
    ensures Extract(0, width, rem, n) == Bits(0)
  {
    hide Pow2;
  }

  function Zeros(n: nat): (z: seq<nat>)
    ensures |z| == n && forall i :: 0 <= i < n ==> z[i] == 0
  {
    seq(n, _ => 0)
  }

  lemma ZerosNext(n: nat)
    requires n > 0
    ensures Zeros(n - 1) + [0] == Zeros(n)
  {
  }

  lemma {:induction false} ZeroFields(d: seq<byte>, size: nat, bit: nat, width: nat, n: nat)
    requires Quiet(d, size) && 16 <= bit && width <= 6 && bit + width * n <= 8 * (size - 2)
    ensures FixedFields(d, 8 * size, bit, width, n) == Values(Zeros(n), bit + width * n)
  {
    hide *;
    QuietSize(d, size);
    NoFields(d, size, bit, width);
    if n > 0 {
      assert width * n == width * (n - 1) + width;
      ZeroFields(d, size, bit, width, n - 1);
      ZeroField(d, size, bit + width * (n - 1), width);
      ZerosNext(n);
      FixedFieldsNext(d, 8 * size, bit, width, n);
    }
  }

  lemma NoFields(d: seq<byte>, size: nat, bit: nat, width: nat)
    requires size <= |d|
    ensures FixedFields(d, 8 * size, bit, width, 0) == Values(Zeros(0), bit)
  {
    assert Zeros(0) == [];
  }

  lemma ZeroLevel(d: seq<byte>, size: nat, bit: nat)
    requires Quiet(d, size) && 16 <= bit && bit + 1 <= 8 * (size - 2)
    ensures NextLevel(d, 8 * size, bit, 0, 0) == Levels([0], bit + 1, true)
  {
    assert Pow2(1) == 2;
    ZeroField(d, size, bit, 1);
    hide FieldAt, Quiet;
    assert Half(1) == 0;
  }

  lemma {:induction false} ZeroDeltas(d: seq<byte>, size: nat, bit: nat, n: nat)
    requires Quiet(d, size) && 16 <= bit && 0 < n && bit + n - 1 <= 8 * (size - 2)
    ensures DeltaLevels(d, 8 * size, bit, 0, 0, n) == Levels(Zeros(n), bit + n - 1, true)
  {
    hide *;
    QuietSize(d, size);
    ZerosNext(n);
    FirstDelta(d, size, bit);
    if n > 1 {
      ZeroDeltas(d, size, bit, n - 1);
      ZeroLevel(d, size, bit + n - 2);
      DeltaLevelsNext(d, 8 * size, bit, 0, 0, n);
    }
  }

  lemma QuietSize(d: seq<byte>, size: nat)
    requires Quiet(d, size)
    ensures 4 <= size <= |d|
  {
  }

  lemma FirstDelta(d: seq<byte>, size: nat, bit: nat)
    requires size <= |d|
    ensures DeltaLevels(d, 8 * size, bit, 0, 0, 1) == Levels(Zeros(1), bit, true)
  {
    assert Zeros(1) == [0];
  }

  /** All scale factors of a silent channel are zero, where the header leaves room for them. */
  lemma ZeroScales(d: seq<byte>, size: nat, bit: nat, t: ChannelType, codedCount: nat, before: seq<nat>, groups: nat,
                   version: nat)
    requires Quiet(d, size) && 16 <= bit && bit + 3 <= 8 * (size - 2) && |before| == 128 && codedCount <= 128
    requires var extra := ExtraCount(t, groups, version); extra == 0 || codedCount + extra < 128
    ensures ScalesAfter(d, 8 * size, bit, t, codedCount, before, groups, version) == ScalesRead(Zeros(128), bit + 3)
  {
    var extra := ExtraCount(t, groups, version);
    assert (codedCount + extra) % WORD == codedCount + extra;
    ZeroField(d, size, bit, 3);
    hide FieldAt, Quiet;
    assert UnpackedScales(d, 8 * size, bit, before, codedCount + extra) == Values(Zeros(128), bit + 3);
    assert Derived(Zeros(128), codedCount + extra, extra) == Zeros(128);
  }

  /** The intensities of a silent secondary channel: eight of four bits, or four bits, the width code and seven single bits. */
  function LevelBits(version: nat): nat { if version <= HCA_VERSION_200 then 32 else 13 }

  lemma ZeroLevels(d: seq<byte>, size: nat, bit: nat, before: seq<nat>, version: nat)
    requires Quiet(d, size) && 16 <= bit && bit + LevelBits(version) <= 8 * (size - 2) && |before| == 8
    ensures var l := UnpackedLevels(d, 8 * size, bit, before, version); l.Levels? && l.end == bit + LevelBits(version)
  {
    assert size <= |d|;
    ZeroField(d, size, bit, 4);
    if version <= HCA_VERSION_200 {
      ZeroFields(d, size, bit + 4, 4, 7);
    } else {
      ZeroCoded(d, size, bit + 4, before);
    }
    hide Peek, FixedFields, CodedLevels, Quiet, Pow2;
  }

  lemma ZeroCoded(d: seq<byte>, size: nat, bit: nat, before: seq<nat>)
    requires Quiet(d, size) && 16 <= bit && bit + 9 <= 8 * (size - 2) && |before| == 8
    ensures var l := CodedLevels(d, 8 * size, bit, before, 0); l.Levels? && l.end == bit + 9
  {
    assert size <= |d|;
    ZeroField(d, size, bit, 2);
    ZeroDeltas(d, size, bit + 2, 8);
    hide FieldAt, FixedLevels, DeltaLevels, Quiet;
  }

  // ---------- all channels ----------

  /** Bits of the side information of a silent channel: no scale factors, then intensities or group scales. */
  function ChannelBits(t: ChannelType, groups: nat, version: nat): nat
  {
    3 + if t.StereoSecondary? then LevelBits(version) else if version <= HCA_VERSION_200 then 6 * groups else 0
  }

  function SilentBits(h: Header.Params, k: nat): nat
    requires h.Accepted()
  {
    if k == 0 then 0 else SilentBits(h, k - 1) + ChannelBits(Header.TypeOf(h, k - 1), h.HfrGroupCount(), h.version)
  }

  lemma {:induction false} SilentBitsGrow(h: Header.Params, k: nat, n: nat)
    requires h.Accepted() && k <= n
    ensures SilentBits(h, k) <= SilentBits(h, n)
    decreases n
  {
    hide ChannelBits;
    if k < n {
      SilentBitsGrow(h, k, n - 1);
    }
  }

  /** Room for exactly that between header and checksum. */
  predicate Roomy(h: Header.Params)
    requires h.Accepted()
  {
    32 + SilentBits(h, h.channels) <= 8 * (h.frameSize - 2)
  }

  lemma ZeroSide(d: seq<byte>, size: nat, bit: nat, t: ChannelType, codedCount: nat, sf: seq<nat>, intensity: seq<nat>,
                 groups: nat, version: nat)
    requires Quiet(d, size) && 16 <= bit && bit + ChannelBits(t, groups, version) <= 8 * (size - 2)
    requires |sf| == 128 && |intensity| == 8 && codedCount <= 128 && (version <= HCA_VERSION_200 ==> groups <= 128)
    requires var extra := ExtraCount(t, groups, version); extra == 0 || codedCount + extra < 128
    ensures var s := SideAfter(d, 8 * size, bit, t, codedCount, sf, intensity, groups, version);
      s.SideRead? && s.scaleFactors == Zeros(128) && s.end == bit + ChannelBits(t, groups, version)
  {
    hide *;
    QuietSize(d, size);
    AtLeastThree(t, groups, version);
    ZeroScales(d, size, bit, t, codedCount, sf, groups, version);
    ZeroIntensities(d, size, bit + 3, t, intensity, groups, version);
    SideParts(d, 8 * size, bit, t, codedCount, sf, intensity, groups, version);
  }

  lemma AtLeastThree(t: ChannelType, groups: nat, version: nat)
    ensures 3 <= ChannelBits(t, groups, version)
  {
  }

  lemma ZeroIntensities(d: seq<byte>, size: nat, bit: nat, t: ChannelType, intensity: seq<nat>, groups: nat, version: nat)
    requires Quiet(d, size) && 16 <= bit && bit + ChannelBits(t, groups, version) - 3 <= 8 * (size - 2) && |intensity| == 8
    requires version <= HCA_VERSION_200 ==> groups <= 128
    ensures var l := IntensitiesAfter(d, 8 * size, bit, t, Zeros(128), intensity, groups, version);
      l.IntensitiesRead? && l.scaleFactors == Zeros(128) && l.end == bit + ChannelBits(t, groups, version) - 3
  {
    assert size <= |d|;
    if t.StereoSecondary? {
      ZeroLevels(d, size, bit, intensity, version);
    } else if version <= HCA_VERSION_200 {
      ZeroFields(d, size, bit, 6, groups);
      assert Zeros(128)[..128 - groups] + Zeros(groups) == Zeros(128);
    }
    hide UnpackedLevels, FixedFields, Quiet, Zeros, LevelBits;
  }

  lemma {:induction false} ZeroSides(h: Header.Params, d: seq<byte>, sides: seq<SideState>, k: nat)
    requires h.Accepted() && !Unusable(h) && Roomy(h) && Quiet(d, h.frameSize) && SidesShape(h, sides) && k <= h.channels
    ensures var c := SidesAfter(h, d, 32, sides, k);
      c.Chain? && c.end == 32 + SilentBits(h, k) && forall i :: 0 <= i < k ==> c.sides[i].scaleFactors == Zeros(128)
  {
    hide *;
    RoomyStep(h, d, k);
    if k == 0 {
      NoSides(h, d, sides);
    } else {
      ZeroSides(h, d, sides, k - 1);
      var c := SidesAfter(h, d, 32, sides, k - 1);
      SidesNext(h, d, sides, k);
      ZeroOne(h, d, c.sides, c.end, k - 1);
    }
  }

  lemma RoomyStep(h: Header.Params, d: seq<byte>, k: nat)
    requires h.Accepted() && Roomy(h) && Quiet(d, h.frameSize) && k <= h.channels
    ensures h.frameSize <= |d| && h.frameSize >= 2 && 32 + SilentBits(h, k) <= 8 * (h.frameSize - 2)
    ensures k == 0 ==> SilentBits(h, k) == 0
    ensures k > 0 ==>
      SilentBits(h, k) == SilentBits(h, k - 1) + ChannelBits(Header.TypeOf(h, k - 1), h.HfrGroupCount(), h.version)
  {
    SilentBitsGrow(h, k, h.channels);
    hide ChannelBits, Header.TypeOf, Header.Params.HfrGroupCount, Header.Params.Accepted;
  }

  lemma ZeroOne(h: Header.Params, d: seq<byte>, sides: seq<SideState>, bit: nat, i: nat)
    requires h.Accepted() && !Unusable(h) && Quiet(d, h.frameSize) && SidesShape(h, sides) && i < h.channels && 16 <= bit
    requires bit + ChannelBits(Header.TypeOf(h, i), h.HfrGroupCount(), h.version) <= 8 * (h.frameSize - 2)
    ensures h.frameSize <= |d|
    ensures var c := OneMore(h, d, bit, sides, i);
      c.Chain? && c.end == bit + ChannelBits(Header.TypeOf(h, i), h.HfrGroupCount(), h.version)
      && c.sides[i].scaleFactors == Zeros(128) && forall k :: 0 <= k < h.channels && k != i ==> c.sides[k] == sides[k]
  {
    assert h.frameSize <= |d|;
    UsableChannel(h, i);
    var t := Header.TypeOf(h, i);
    ZeroSide(d, h.frameSize, bit, t, Header.CodedCount(h, t), sides[i].scaleFactors, sides[i].intensity, h.HfrGroupCount(),
             h.version);
    hide Unusable, Quiet, SideAfter, ChannelBits, Zeros, Header.TypeOf, Header.CodedCount, Header.Params.HfrGroupCount;
  }

  /** Silent channels have no coefficients. */
  lemma {:induction false} ZeroRun(d: seq<byte>, size: nat, bit: nat, k: nat)
    requires size <= 8 * |d| && k <= 128
    ensures var run := Coefficients.DecodeRun(d, size, bit, Zeros(128), k); run.Coefficients? && run.end == bit
  {
    if k > 0 {
      ZeroRun(d, size, bit, k - 1);
      NoCoefficient(d, size, bit);
      hide Coefficients.DecodeOne;
    }
  }

  lemma NoCoefficient(d: seq<byte>, size: nat, bit: nat)
    requires size <= 8 * |d|
    ensures Coefficients.DecodeOne(d, size, bit, 0) == Coefficients.Coefficient(0, bit)
  {
  }

  lemma NoResolution(rule: Resolution.Rule, ath: seq<nat>, n: nat)
    requires rule.WellFormed() && |ath| == 128 && n <= 128
    ensures Resolution.Resolutions(rule, Zeros(128), ath, n) == Zeros(128)
  {
  }

  lemma {:induction false} ZeroRuns(h: Header.Params, ath: seq<nat>, rule: Resolution.Rule, sides: seq<SideState>, d: seq<byte>,
                                    bit: nat, subframe: nat, i: nat)
    requires h.Accepted() && SidesShape(h, sides) && i <= h.channels && h.frameSize <= |d| && rule.WellFormed() && |ath| == 128
    requires forall k :: 0 <= k < h.channels ==> sides[k].scaleFactors == Zeros(128)
    ensures RunsEnd(h, ath, rule, sides, d, bit, subframe, i) == Some(bit)
    decreases subframe, i
  {
    hide Coefficients.DecodeRun, Resolution.Resolutions, Header.TypeOf, Zeros;
    if i > 0 {
      ZeroRuns(h, ath, rule, sides, d, bit, subframe, i - 1);
      var n := Header.CodedCount(h, Header.TypeOf(h, i - 1));
      NoResolution(rule, ath, n);
      ZeroRun(d, 8 * h.frameSize, bit, n);
    } else if subframe > 0 {
      ZeroRuns(h, ath, rule, sides, d, bit, subframe - 1, h.channels);
    }
  }

  lemma ZeroRule(h: Header.Params, d: seq<byte>)
    requires h.Accepted() && Quiet(d, h.frameSize) && Roomy(h)
    ensures h.frameSize <= |d| && RuleOf(h, d) == Some(Resolution.Rule(0, 0, h.minResolution, h.maxResolution))
  {
    ZeroField(d, h.frameSize, 16, 9);
    ZeroField(d, h.frameSize, 25, 7);
    hide FieldAt, SilentBits;
  }

  lemma QuietAccepted(h: Header.Params, ath: seq<nat>, d: seq<byte>, sides: seq<SideState>)
    requires h.Accepted() && !Unusable(h) && Roomy(h) && Quiet(d, h.frameSize) && SidesShape(h, sides) && |ath| == 128
    ensures h.frameSize <= |d| && UnpackedOf(h, ath, d, sides).Accepted?
  {
    ZeroRule(h, d);
    RuleFits(h, d);
    ZeroSides(h, d, sides, h.channels);
    var c := SidesAfter(h, d, 32, sides, h.channels);
    var rule := Resolution.Rule(0, 0, h.minResolution, h.maxResolution);
    hide RuleOf, SidesAfter, RunsEnd, Unusable, Quiet;
    ZeroRuns(h, ath, rule, c.sides, d, c.end, SUBFRAMES, 0);
  }

  // ---------- the frame as it stands in a file ----------

  /** Sync word and zeros. */
  function Body(size: nat): (b: seq<byte>)
    requires size >= 4
    ensures |b| == size - 2
  {
    [255, 255] + seq(size - 4, _ => 0)
  }

  function SilentBytes(size: nat): (f: seq<byte>)
    requires size >= 4
    ensures |f| == size
  {
    WithChecksum(Body(size))
  }

  lemma FrameQuiet(size: nat, table: seq<byte>)
    requires size >= 8 && Cipher.IsSubstitution(table)
    ensures FieldAt(SilentBytes(size), 8 * size, 0, 16) == Field(0xFFFF, 16)
    ensures Quiet(Decrypted(table, SilentBytes(size), size), size)
  {
    var f := SilentBytes(size);
    SyncReads(f, size);
    hide Crc.Crc, FieldAt;
  }

  /**
    Under an accepted header that is unusable or has room for silence, some frame is accepted exactly
    when it is not unusable, and some frame is decoded to its end exactly when the high bands have a
    source too.
   */
  lemma UsableExactly(h: Header.Params, ath: seq<nat>, table: seq<byte>, sides: seq<SideState>)
    requires h.Accepted() && (Unusable(h) || Roomy(h)) && Cipher.IsSubstitution(table) && |ath| == 128 && SidesShape(h, sides)
    ensures (exists data :: OutcomeOf(h, ath, table, data, sides).Accepted?) <==> !Unusable(h)
    ensures (exists data :: FrameOutcome(h, ath, table, data, sides).Accepted?) <==> !Unusable(h) && !BadLayout(h)
  {
    hide OutcomeOf, BadLayout, Unusable;
    if Unusable(h) {
      forall data ensures !OutcomeOf(h, ath, table, data, sides).Accepted? {
        NeverAccepted(h, ath, table, data, sides);
      }
    } else {
      SilenceAccepted(h, ath, table, sides);
      var f := SilentBytes(h.frameSize);
      assert !BadLayout(h) ==> FrameOutcome(h, ath, table, f, sides).Accepted?;
    }
  }

  lemma SilenceAccepted(h: Header.Params, ath: seq<nat>, table: seq<byte>, sides: seq<SideState>)
    requires h.Accepted() && Roomy(h) && Cipher.IsSubstitution(table) && |ath| == 128 && SidesShape(h, sides) && !Unusable(h)
    ensures OutcomeOf(h, ath, table, SilentBytes(h.frameSize), sides).Accepted?
  {
    var f := SilentBytes(h.frameSize);
    FrameQuiet(h.frameSize, table);
    ChecksumRight(Body(h.frameSize));
    assert SilentBytes(h.frameSize)[..h.frameSize] == SilentBytes(h.frameSize);
    QuietAccepted(h, ath, Decrypted(table, f, h.frameSize), sides);
    hide FieldAt, Crc.BitCrc, Crc.BitsOf, AsBits, UnpackedOf, Decrypted, Unusable, SilentBytes;
  }

  /** Under headers without a source for their high bands a frame is accepted, and no frame is decoded to its end. */
  lemma BadLayoutReached(ath: seq<nat>, table: seq<byte>, h: Header.Params, sides: seq<SideState>, data: seq<byte>)
    requires h == FewCoded() || h == NoBands()
    requires Cipher.IsSubstitution(table) && |ath| == 128 && SidesShape(h, sides)
    ensures h.Accepted() && h.frameSize >= 4 && OutcomeOf(h, ath, table, SilentBytes(h.frameSize), sides).Accepted?
    ensures !FrameOutcome(h, ath, table, data, sides).Accepted?
  {
    assert |table| == 256;
    hide *;
    BadLayoutRoomy(h);
    SilenceAccepted(h, ath, table, sides);
    NeverDecoded(h, ath, table, data, sides);
  }

  lemma BadLayoutRoomy(h: Header.Params)
    requires h == FewCoded() || h == NoBands()
    ensures h.Accepted() && !Unusable(h) && BadLayout(h) && Roomy(h)
  {
    hide Header.Params.HfrGroupCount, SilentBits, Header.Params.Accepted, Header.Params.BandsOrdered, Unusable, BadLayout,
      LayoutOf;
    BadLayoutAccepted();
    OneChannel(h);
  }

  lemma OneChannel(h: Header.Params)
    requires h.Accepted() && h.channels == 1 && h.version == 0x0200
    ensures SilentBits(h, 1) == 3 + 6 * h.HfrGroupCount()
  {
    FirstNotSecondary(h);
    assert SilentBits(h, 0) == 0;
    hide Header.TypeOf, Header.Params.HfrGroupCount, Header.Params.Accepted;
  }

  lemma NeverDecoded(h: Header.Params, ath: seq<nat>, table: seq<byte>, data: seq<byte>, sides: seq<SideState>)
    requires h.Accepted() && BadLayout(h) && SidesShape(h, sides) && |ath| == 128 && |table| == 256
    ensures !FrameOutcome(h, ath, table, data, sides).Accepted?
  {
    hide OutcomeOf;
  }
}

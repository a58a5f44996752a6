/**
  Whole frames as functions of their bytes: checks, decryption and unpacking of every channel,
  the headers that no frame fits, and the outcomes of frames one after the other.
 */
module Frame {
  import opened Bytes
  import opened BitReader
  import opened Channel
  import opened Common
  import Cipher
  import Coefficients
  import Crc
  import Header
  import Hfr
  import Resolution
  import opened Streams

  const SUBFRAMES: nat := 8

  /** Tables of the dequantizer, indexed by scale factor and by resolution. */
  datatype Tables = Tables(scaling: seq<real>, range: seq<real>, conversion: seq<real>, ratio: seq<real>)
  {
    predicate Valid() { |scaling| == 64 && |range| == 16 && |conversion| == 128 && |ratio| == 16 }
  }

  /** Where the high bands are. */
  function LayoutOf(h: Header.Params): Hfr.Layout
  {
    Hfr.Layout(h.stereoBandCount + h.baseBandCount, h.totalBandCount, h.bandsPerHfrGroup, h.HfrGroupCount(), h.version)
  }

  lemma LayoutValid(h: Header.Params)
    requires h.Accepted()
    ensures h.BandsOrdered() ==> LayoutOf(h).Valid()
    ensures LayoutOf(h).bands == h.bandsPerHfrGroup
  {
    Header.GroupsInRange(h);
  }

  /** Whether copying high bands leaves the array in every frame. */
  predicate BadLayout(h: Header.Params)
  {
    h.bandsPerHfrGroup > 0 && LayoutOf(h).Panics()
  }

  // ---------- the side information of all channels ----------

  datatype Outcome = Accepted(bit: nat) | BadParams | BadSync | BadChecksum | BadUnpack | BrokenOff

  /** The side information of a channel that outlives a frame. */
  datatype SideState = SideState(scaleFactors: seq<nat>, intensity: seq<nat>)
  {
    predicate Valid()
    {
      |scaleFactors| == 128 && |intensity| == 8 && Below(scaleFactors, 64) && Below(intensity, 16)
    }
  }

  predicate SidesShape(h: Header.Params, sides: seq<SideState>)
  {
    |sides| == h.channels && forall i :: 0 <= i < |sides| ==> sides[i].Valid()
  }

  /** Rejected: the channels before the rejected one, and what it wrote, stay. */
  datatype Chain = Chain(sides: seq<SideState>, end: nat) | ChainRejected(sides: seq<SideState>) | ChainPanicked

  /** The side information of the first k channels, one after the other in the stream. */
  function SidesAfter(h: Header.Params, data: seq<byte>, bit: nat, sides: seq<SideState>, k: nat): (c: Chain)
    requires h.Accepted() && SidesShape(h, sides) && k <= h.channels && h.frameSize <= |data|
    ensures !c.ChainPanicked? ==> SidesShape(h, c.sides)
  {
    if k == 0 then Chain(sides, bit) else
      match SidesAfter(h, data, bit, sides, k - 1)
      case ChainRejected(partial) => ChainRejected(partial)
      case ChainPanicked => ChainPanicked
      case Chain(before, at) => OneMore(h, data, at, before, k - 1)
  }

  /** Channel i after the others before it. */
  function OneMore(h: Header.Params, data: seq<byte>, bit: nat, sides: seq<SideState>, i: nat): (c: Chain)
    requires h.Accepted() && SidesShape(h, sides) && i < h.channels && h.frameSize <= |data|
    ensures !c.ChainPanicked? ==> SidesShape(h, c.sides)
  {
    var t := Header.TypeOf(h, i);
    SideInRange(data, 8 * h.frameSize, bit, t, Header.CodedCount(h, t), sides[i].scaleFactors, sides[i].intensity,
                h.HfrGroupCount(), h.version);
    match SideAfter(data, 8 * h.frameSize, bit, t, Header.CodedCount(h, t), sides[i].scaleFactors, sides[i].intensity,
                    h.HfrGroupCount(), h.version)
    case SideRejected(sf) => ChainRejected(sides[i := SideState(sf, sides[i].intensity)])
    case SidePanicked => ChainPanicked
    case SideRead(sf, levels, end) => Chain(sides[i := SideState(sf, levels)], end)
  }

  lemma NoSides(h: Header.Params, d: seq<byte>, sides: seq<SideState>)
    requires h.Accepted() && SidesShape(h, sides) && h.frameSize <= |d|
    ensures SidesAfter(h, d, 32, sides, 0) == Chain(sides, 32)
  {
  }

  lemma SidesNext(h: Header.Params, d: seq<byte>, sides: seq<SideState>, k: nat)
    requires h.Accepted() && SidesShape(h, sides) && h.frameSize <= |d| && 0 < k <= h.channels
    requires SidesAfter(h, d, 32, sides, k - 1).Chain?
    ensures var c := SidesAfter(h, d, 32, sides, k - 1);
      SidesShape(h, c.sides) && SidesAfter(h, d, 32, sides, k) == OneMore(h, d, c.end, c.sides, k - 1)
  {
    hide OneMore;
  }

  lemma {:induction false} SidesStay(h: Header.Params, d: seq<byte>, sides: seq<SideState>, k: nat, n: nat)
    requires h.Accepted() && SidesShape(h, sides) && h.frameSize <= |d| && k <= n <= h.channels
    requires !SidesAfter(h, d, 32, sides, k).Chain?
    ensures SidesAfter(h, d, 32, sides, n) == SidesAfter(h, d, 32, sides, k)
    decreases n
  {
    hide OneMore;
    if k < n {
      SidesStay(h, d, sides, k, n - 1);
    }
  }

  /** Where the stream stands before channel i of a subframe: all channels of a subframe, then the next subframe. */
  function RunsEnd(h: Header.Params, ath: seq<nat>, rule: Resolution.Rule, sides: seq<SideState>, data: seq<byte>, bit: nat,
                   subframe: nat, i: nat): Option<nat>
    requires h.Accepted() && SidesShape(h, sides) && i <= h.channels && h.frameSize <= |data|
    requires rule.WellFormed() && |ath| == 128
    decreases subframe, i
  {
    if i == 0 then if subframe == 0 then Some(bit) else RunsEnd(h, ath, rule, sides, data, bit, subframe - 1, h.channels)
    else
      match RunsEnd(h, ath, rule, sides, data, bit, subframe, i - 1)
      case None => None
      case Some(at) => RunOf(h, ath, rule, sides[i - 1].scaleFactors, data, at, i - 1)
  }

  function RunOf(h: Header.Params, ath: seq<nat>, rule: Resolution.Rule, sf: seq<nat>, data: seq<byte>, bit: nat, i: nat)
    : Option<nat>
    requires h.Accepted() && |sf| == 128 && h.frameSize <= |data| && rule.WellFormed() && |ath| == 128
  {
    var n := Header.CodedCount(h, Header.TypeOf(h, i));
    var run := Coefficients.DecodeRun(data, 8 * h.frameSize, bit, Resolution.Resolutions(rule, sf, ath, n), n);
    if run.Coefficients? then Some(run.end) else None
  }

  function Decrypted(table: seq<byte>, data: seq<byte>, size: nat): (d: seq<byte>)
    requires |table| == 256 && size <= |data|
    ensures |d| == |data|
  {
    Cipher.Substituted(table, data[..size]) + data[size..]
  }

  /** The rule that a decrypted frame starts with. */
  function RuleOf(h: Header.Params, d: seq<byte>): Option<Resolution.Rule>
    requires h.frameSize <= |d|
  {
    match FieldAt(d, 8 * h.frameSize, 16, 9)
    case NoField => None
    case Field(noise, at) =>
      match FieldAt(d, 8 * h.frameSize, at, 7)
      case NoField => None
      case Field(boundary, _) => Some(Resolution.Rule(noise, boundary, h.minResolution, h.maxResolution))
  }

  lemma RuleFits(h: Header.Params, d: seq<byte>)
    requires h.Accepted() && h.frameSize <= |d|
    ensures RuleOf(h, d).Some? ==> RuleOf(h, d).value.WellFormed()
  {
    assert Pow2(7) == 128 && Pow2(8) == 256 && Pow2(9) == 512;
  }

  /** What becomes of a decrypted frame. */
  function UnpackedOf(h: Header.Params, ath: seq<nat>, d: seq<byte>, sides: seq<SideState>): Outcome
    requires h.Accepted() && SidesShape(h, sides) && |ath| == 128 && h.frameSize <= |d|
  {
    RuleFits(h, d);
    match RuleOf(h, d)
    case None => BrokenOff
    case Some(rule) =>
      match SidesAfter(h, d, 32, sides, h.channels)
      case ChainRejected(_) => BadUnpack
      case ChainPanicked => BrokenOff
      case Chain(after, end) =>
        match RunsEnd(h, ath, rule, after, d, end, SUBFRAMES, 0)
        case None => BrokenOff
        case Some(bit) => Accepted(bit)
  }

  /** What becomes of a frame: the checks in their order, then unpacking. */
  function OutcomeOf(h: Header.Params, ath: seq<nat>, table: seq<byte>, data: seq<byte>, sides: seq<SideState>): Outcome
    requires h.Accepted() && SidesShape(h, sides) && |ath| == 128 && |table| == 256
  {
    if |data| < h.frameSize then BadParams else
      match FieldAt(data, 8 * h.frameSize, 0, 16)
      case NoField => BrokenOff
      case Field(sync, _) =>
        if sync != 0xFFFF then BadSync
        else if Crc.BitCrc(Crc.BitsOf(AsBits(data[..h.frameSize]))) != 0 then BadChecksum
        else UnpackedOf(h, ath, Decrypted(table, data, h.frameSize), sides)
  }

  /** The side information after a frame that does not break off. */
  function NextSides(h: Header.Params, ath: seq<nat>, table: seq<byte>, data: seq<byte>, sides: seq<SideState>)
    : (r: seq<SideState>)
    requires h.Accepted() && SidesShape(h, sides) && |ath| == 128 && |table| == 256
    ensures SidesShape(h, r)
  {
    var o := OutcomeOf(h, ath, table, data, sides);
    if o.Accepted? || o.BadUnpack? then
      var c := SidesAfter(h, Decrypted(table, data, h.frameSize), 32, sides, h.channels);
      if c.ChainPanicked? then sides else c.sides
    else sides
  }

  function AsBits(data: seq<byte>): seq<bv8>
  {
    seq(|data|, i requires 0 <= i < |data| => data[i] as bv8)
  }

  /** A frame is turned away exactly when it is too short, does not start with two bytes of ones, or has a wrong checksum, in this order. */
  lemma ChecksDecide(h: Header.Params, ath: seq<nat>, table: seq<byte>, data: seq<byte>, sides: seq<SideState>)
    requires h.Accepted() && SidesShape(h, sides) && |ath| == 128 && |table| == 256
    ensures var o := OutcomeOf(h, ath, table, data, sides);
      (o == BadParams <==> |data| < h.frameSize)
      && (o == BadSync <==> |data| >= h.frameSize && !(data[0] == 255 && data[1] == 255))
      && (o == BadChecksum <==>
            |data| >= h.frameSize && data[0] == 255 && data[1] == 255
            && Crc.BitCrc(Crc.BitsOf(AsBits(data[..h.frameSize]))) != 0)
  {
    if |data| >= h.frameSize {
      FirstField(data, h.frameSize);
    }
    hide FieldAt, Crc.BitCrc, Crc.BitsOf, AsBits, Decrypted, SidesAfter, RunsEnd, RuleOf;
  }

  lemma FirstField(f: seq<byte>, size: nat)
    requires 2 <= size <= |f|
    ensures FieldAt(f, 8 * size, 0, 16) == Field(256 * (f[0] as int) + f[1], 16)
  {
    AlignedPeek(f, 8 * size, 0, 16);
    WindowIsValue(f, 0, 2);
    assert Window(f, 0, 1) == f[0];
    hide Value;
  }

  // ---------- frames with a right checksum ----------

  function WithChecksum(body: seq<byte>): (f: seq<byte>)
    ensures |f| == |body| + 2 && f[..|body|] == body
  {
    var crc := Crc.Crc(AsBits(body));
    body + [(crc >> 8) as bv8 as byte, (crc & 0xFF) as bv8 as byte]
  }

  lemma ChecksumRight(body: seq<byte>)
    ensures Crc.BitCrc(Crc.BitsOf(AsBits(WithChecksum(body)))) == 0
  {
    var crc := Crc.Crc(AsBits(body));
    var hi, lo := (crc >> 8) as bv8, (crc & 0xFF) as bv8;
    Halves(crc, hi, lo);
    hide Crc.Crc, Crc.BitCrc, Crc.BitsOf, Crc.BigEndian;
    assert AsBits(WithChecksum(body)) == AsBits(body) + [hi, lo];
    Crc.ZeroExactlyWithTrailer(AsBits(body), hi, lo);
    Crc.CrcIsBitwise(AsBits(WithChecksum(body)));
  }

  lemma Halves(crc: bv16, hi: bv8, lo: bv8)
    requires hi == (crc >> 8) as bv8 && lo == (crc & 0xFF) as bv8
    ensures Crc.BigEndian(hi, lo) == crc
  {
  }

  lemma SyncReads(f: seq<byte>, size: nat)
    requires 2 <= size <= |f| && f[0] == f[1] == 255
    ensures FieldAt(f, 8 * size, 0, 16) == Field(0xFFFF, 16)
  {
    FirstField(f, size);
    hide FieldAt;
  }

  // ---------- headers that no frame fits ----------

  /** Accepted headers whose first channel panics in every frame: more groups than slots, or no slot after the last scale factor. */
  predicate Unusable(h: Header.Params)
  {
    if h.version <= HCA_VERSION_200 then h.HfrGroupCount() > 128
    else h.HfrGroupCount() > 0 && h.baseBandCount + h.stereoBandCount + h.HfrGroupCount() >= 128
  }

  lemma FirstNotSecondary(h: Header.Params)
    requires h.Accepted()
    ensures h.channels > 0 && !Header.TypeOf(h, 0).StereoSecondary?
    ensures Header.CodedCount(h, Header.TypeOf(h, 0)) == h.baseBandCount + h.stereoBandCount
  {
    Header.PairsComplete(h, 0);
  }

  /** What such a header grants every channel. */
  lemma UsableChannel(h: Header.Params, i: nat)
    requires h.Accepted() && !Unusable(h)
    ensures var t := Header.TypeOf(h, i);
      var extra, n := ExtraCount(t, h.HfrGroupCount(), h.version), Header.CodedCount(h, t);
      n <= 128 && (extra == 0 || n + extra < 128) && (h.version <= HCA_VERSION_200 ==> h.HfrGroupCount() <= 128)
  {
    hide Header.Params.HfrGroupCount, Header.TypeOf;
  }

  lemma FirstNeverRead(h: Header.Params, d: seq<byte>, sides: seq<SideState>)
    requires h.Accepted() && Unusable(h) && SidesShape(h, sides) && h.frameSize <= |d|
    ensures !SidesAfter(h, d, 32, sides, 1).Chain?
  {
    FirstNotSecondary(h);
    Header.GroupCountIsWord(h);
    var t, groups := Header.TypeOf(h, 0), h.HfrGroupCount();
    var n := Header.CodedCount(h, t);
    if h.version > HCA_VERSION_200 {
      NeverRead(d, 8 * h.frameSize, 32, t, n, sides[0].scaleFactors, groups, h.version);
    }
    hide ScalesAfter, UnpackedLevels, FixedFields, Header.TypeOf, Header.CodedCount, Header.Params.HfrGroupCount;
    assert !SideAfter(d, 8 * h.frameSize, 32, t, n, sides[0].scaleFactors, sides[0].intensity, groups, h.version).SideRead?;
    assert SidesAfter(h, d, 32, sides, 0) == Chain(sides, 32);
  }

  /** No frame, whatever its bytes and whatever came before it, is ever accepted under such a header. */
  lemma NeverAccepted(h: Header.Params, ath: seq<nat>, table: seq<byte>, data: seq<byte>, sides: seq<SideState>)
    requires h.Accepted() && Unusable(h) && SidesShape(h, sides) && |ath| == 128 && |table| == 256
    ensures !OutcomeOf(h, ath, table, data, sides).Accepted?
  {
    hide Unusable, FieldAt, Crc.BitCrc, Crc.BitsOf, AsBits, Decrypted, SidesAfter, RunsEnd;
    if h.frameSize <= |data| {
      var d := Decrypted(table, data, h.frameSize);
      FirstNeverRead(h, d, sides);
      FirstNotSecondary(h);
      SidesStay(h, d, sides, 1, h.channels);
    }
  }

  /** Bands out of order leave a number of groups that no frame fits. */
  lemma UnorderedUnusable(h: Header.Params)
    requires h.Accepted() && !h.BandsOrdered() && h.bandsPerHfrGroup > 0
    ensures Unusable(h)
  {
    Header.GroupsInRange(h);
    hide Header.Params.HfrGroupCount;
  }

  /** With ordered bands it takes version 3 and every slot coded or scaled: total 128 bands in groups of one. */
  lemma OrderedUnusable(h: Header.Params)
    requires h.Accepted() && h.BandsOrdered()
    ensures Unusable(h) <==>
      h.version > HCA_VERSION_200 && h.bandsPerHfrGroup > 0 && h.HfrGroupCount() > 0
      && h.baseBandCount + h.stereoBandCount + h.HfrGroupCount() == 128
  {
    Header.GroupsInRange(h);
    hide Header.Params.HfrGroupCount;
  }

  /** Two accepted headers no frame fits: 64 coded bands and 64 groups of one band, and bands out of order. */
  lemma UnusableAccepted()
    ensures var h := Header.Params(0x0300, 1, 8, 0, 15, 1, 0, 128, 64, 0, 1, 0);
      h.Accepted() && h.BandsOrdered() && h.HfrGroupCount() == 64 && Unusable(h)
    ensures var h := Header.Params(0x0300, 1, 8, 0, 15, 1, 0, 10, 20, 0, 1, 0);
      h.Accepted() && !h.BandsOrdered() && CsCount(20, h.HfrGroupCount()) == 10 && Unusable(h)
  {
    var h := Header.Params(0x0300, 1, 8, 0, 15, 1, 0, 128, 64, 0, 1, 0);
    assert h.HfrGroupCount() == 64;
  }

  /** Three coded bands of ten, and a group for each of the other seven. */
  function FewCoded(): Header.Params { Header.Params(0x0200, 1, 12, 1, 15, 1, 0, 10, 3, 0, 1, 0) }

  /** Groups of one band, and no bands. */
  function NoBands(): Header.Params { Header.Params(0x0200, 1, 8, 1, 15, 1, 0, 0, 0, 0, 1, 0) }

  /** Two accepted headers with ordered bands whose high bands have no source: too few coded bands, and no bands at all. */
  lemma BadLayoutAccepted()
    ensures FewCoded().Accepted() && FewCoded().BandsOrdered() && FewCoded().HfrGroupCount() == 7
    ensures NoBands().Accepted() && NoBands().BandsOrdered() && NoBands().HfrGroupCount() == 0
    ensures !Unusable(FewCoded()) && BadLayout(FewCoded()) && !Unusable(NoBands()) && BadLayout(NoBands())
  {
    FewCodedFacts(FewCoded());
    NoBandsFacts(NoBands());
    hide *;
  }

  lemma FewCodedFacts(h: Header.Params)
    requires h == FewCoded()
    ensures h.Accepted() && h.BandsOrdered() && h.HfrGroupCount() == 7 && !Unusable(h) && BadLayout(h)
  {
    assert h.HfrGroupCount() == 7;
    hide Header.Params.HfrGroupCount, BadLayout;
    LegacyBad(h);
  }

  lemma NoBandsFacts(h: Header.Params)
    requires h == NoBands()
    ensures h.Accepted() && h.BandsOrdered() && h.HfrGroupCount() == 0 && !Unusable(h) && BadLayout(h)
  {
    assert h.HfrGroupCount() == 0;
    hide Header.Params.HfrGroupCount, BadLayout;
    LegacyBad(h);
  }

  /** Up to version 2.00 a layout is bad when fewer bands are coded than copied. */
  lemma LegacyBad(h: Header.Params)
    requires h.Accepted() && h.BandsOrdered() && h.version <= HCA_VERSION_200 && h.bandsPerHfrGroup > 0
    ensures BadLayout(h) <==> h.totalBandCount == 0 || h.totalBandCount > 2 * (h.stereoBandCount + h.baseBandCount)
  {
    LayoutValid(h);
    Hfr.LegacyReflects(LayoutOf(h));
    hide Header.Params.HfrGroupCount, Hfr.Layout.Panics, Hfr.Layout.Valid;
  }

  // ---------- runs of frames ----------

  /** What becomes of a frame that is unpacked and transformed. */
  function FrameOutcome(h: Header.Params, ath: seq<nat>, table: seq<byte>, data: seq<byte>, sides: seq<SideState>): Outcome
    requires h.Accepted() && SidesShape(h, sides) && |ath| == 128 && |table| == 256
  {
    var o := OutcomeOf(h, ath, table, data, sides);
    if o.Accepted? && BadLayout(h) then BrokenOff else o
  }

  /** The outcomes of frames one after the other, up to the first that breaks off. */
  function Outcomes(h: Header.Params, ath: seq<nat>, table: seq<byte>, frames: seq<seq<byte>>, sides: seq<SideState>)
    : seq<Outcome>
    requires h.Accepted() && SidesShape(h, sides) && |ath| == 128 && |table| == 256
  {
    if frames == [] then [] else
      var o := FrameOutcome(h, ath, table, frames[0], sides);
      if o.BrokenOff? then [o]
      else [o] + Outcomes(h, ath, table, frames[1..], NextSides(h, ath, table, frames[0], sides))
  }

  /** The side information after them. */
  function RunSides(h: Header.Params, ath: seq<nat>, table: seq<byte>, frames: seq<seq<byte>>, sides: seq<SideState>)
    : (r: seq<SideState>)
    requires h.Accepted() && SidesShape(h, sides) && |ath| == 128 && |table| == 256
    ensures SidesShape(h, r)
  {
    if frames == [] then sides
    else RunSides(h, ath, table, frames[1..], NextSides(h, ath, table, frames[0], sides))
  }

  lemma OutcomesNext(h: Header.Params, ath: seq<nat>, table: seq<byte>, frames: seq<seq<byte>>, sides: seq<SideState>)
    requires h.Accepted() && SidesShape(h, sides) && |ath| == 128 && |table| == 256 && |frames| > 0
    ensures var o := OutcomeOf(h, ath, table, frames[0], sides);
      var next := NextSides(h, ath, table, frames[0], sides);
      SidesShape(h, next)
      && RunSides(h, ath, table, frames, sides) == RunSides(h, ath, table, frames[1..], next)
      && Outcomes(h, ath, table, frames, sides)
         == if o.BrokenOff? || (o.Accepted? && BadLayout(h)) then [BrokenOff]
            else [o] + Outcomes(h, ath, table, frames[1..], next)
  {
    hide OutcomeOf, NextSides, BadLayout;
  }

  lemma NoFrames(h: Header.Params, ath: seq<nat>, table: seq<byte>, sides: seq<SideState>)
    requires h.Accepted() && SidesShape(h, sides) && |ath| == 128 && |table| == 256
    ensures Outcomes(h, ath, table, [], sides) == [] && RunSides(h, ath, table, [], sides) == sides
  {
  }

  lemma AcceptedOrdered(h: Header.Params, ath: seq<nat>, table: seq<byte>, data: seq<byte>, sides: seq<SideState>)
    requires h.Accepted() && SidesShape(h, sides) && |ath| == 128 && |table| == 256
    ensures OutcomeOf(h, ath, table, data, sides).Accepted? ==> h.BandsOrdered() || h.bandsPerHfrGroup == 0
  {
    hide OutcomeOf;
    if !h.BandsOrdered() && h.bandsPerHfrGroup > 0 {
      UnorderedUnusable(h);
      NeverAccepted(h, ath, table, data, sides);
    }
  }

  /**
    A frame that the checks turn away can be taken out of a run: the frames around it have the
    same outcomes.
   */
  lemma {:induction false} BadFramesSkip(h: Header.Params, ath: seq<nat>, table: seq<byte>, before: seq<seq<byte>>,
                                         bad: seq<byte>, after: seq<seq<byte>>, sides: seq<SideState>)
    requires h.Accepted() && SidesShape(h, sides) && |ath| == 128 && |table| == 256
    requires BrokenOff !in Outcomes(h, ath, table, before, sides)
    requires var o := OutcomeOf(h, ath, table, bad, RunSides(h, ath, table, before, sides));
      o.BadParams? || o.BadSync? || o.BadChecksum?
    ensures var o := OutcomeOf(h, ath, table, bad, RunSides(h, ath, table, before, sides));
      var first := Outcomes(h, ath, table, before, sides);
      var rest := Outcomes(h, ath, table, after, RunSides(h, ath, table, before, sides));
      Outcomes(h, ath, table, before + [bad] + after, sides) == first + [o] + rest
      && Outcomes(h, ath, table, before + after, sides) == first + rest
  {
    hide *;
    if |before| == 0 {
      NoFrames(h, ath, table, sides);
      assert before + [bad] + after == [bad] + after && before + after == after;
      TailOf([bad], after);
      OutcomesNext(h, ath, table, [bad] + after, sides);
      NextCases(h, ath, table, bad, sides);
    } else {
      var next := NextSides(h, ath, table, before[0], sides);
      OutcomesNext(h, ath, table, before, sides);
      OutcomesNext(h, ath, table, before + after, sides);
      OutcomesNext(h, ath, table, before + [bad] + after, sides);
      TailOf(before, after);
      TailOf(before, [bad]);
      TailOf(before + [bad], after);
      BadFramesSkip(h, ath, table, before[1..], bad, after, next);
    }
  }

  lemma TailOf<T>(s: seq<T>, t: seq<T>)
    requires |s| > 0
    ensures (s + t)[0] == s[0] && (s + t)[1..] == s[1..] + t
  {
  }

  lemma NextCases(h: Header.Params, ath: seq<nat>, table: seq<byte>, data: seq<byte>, sides: seq<SideState>)
    requires h.Accepted() && SidesShape(h, sides) && |ath| == 128 && |table| == 256
    ensures var o := OutcomeOf(h, ath, table, data, sides);
      var next := NextSides(h, ath, table, data, sides);
      (!o.Accepted? && !o.BadUnpack? ==> next == sides)
      && (o.Accepted? || o.BadUnpack? ==>
            h.frameSize <= |data|
            && var c := SidesAfter(h, Decrypted(table, data, h.frameSize), 32, sides, h.channels);
               !c.ChainPanicked? ==> next == c.sides)
  {
    hide FieldAt, Crc.BitCrc, UnpackedOf, Decrypted, SidesAfter;
  }
}

/**
  Side information of one channel: scale factors, intensities and high-frequency scales.
  Every outcome of unpacking, accepted, rejected or broken off, keeps all values in range.
 */
module Channel {
  import opened BitReader
  import opened Bytes
  import opened Common

  datatype ChannelType = Discrete | StereoPrimary | StereoSecondary

  /** Panicked: the bit reader or an array index panicked. */
  datatype Status = Done | Rejected | Panicked

  // ---------- reading small fields ----------

  lemma PeekBound(data: seq<byte>, size: nat, bit: nat, n: nat)
    requires size <= 8 * |data|
    ensures Peek(data, size, bit, n).Bits? ==> Peek(data, size, bit, n).v < Pow2(n)
  {
    hide Value, Window, Pow2;
    if 0 < n && bit + n <= size {
      PeekExact(data, size, bit, n);
      ValueBound(data, bit, n);
    }
  }

  /** A field of up to eight bits; no value when the reader panics. */
  datatype Field = Field(v: nat, end: nat) | NoField

  function FieldAt(data: seq<byte>, size: nat, bit: nat, n: nat): (f: Field)
    requires size <= 8 * |data|
    ensures f.Field? ==> f.v < Pow2(n) && f.end == bit + n
  {
    PeekBound(data, size, bit, n);
    match Peek(data, size, bit, n)
    case Panic => NoField
    case Bits(v) => Field(v, bit + n)
  }

  method ReadField(br: ClData, n: nat) returns (f: Field)
    requires br.Valid()
    modifies br`bit
    ensures br.Valid() && f == FieldAt(br.data, br.size, old(br.bit), n)
    ensures br.bit == if f.Field? then f.end else old(br.bit)
  {
    var v := br.Read(n);
    PeekBound(br.data, br.size, old(br.bit), n);
    f := if v.Bits? then Field(v.v, br.bit) else NoField;
  }

  // ---------- the delta code of scale factors, over the integers ----------

  datatype Unpacked = Values(vs: seq<nat>, end: nat) | Invalid(vs: seq<nat>) | Stopped

  /** The escape code, and the difference that means no change. */
  function MaxDelta(deltaBits: nat): nat { Pow2(deltaBits) - 1 }

  function Half(deltaBits: nat): nat { MaxDelta(deltaBits) / 2 }

  lemma DeltasSmall(deltaBits: nat)
    requires deltaBits < 6
    ensures MaxDelta(deltaBits) < Pow2(deltaBits) <= 32 && Half(deltaBits) < 16
    ensures deltaBits < 4 ==> Pow2(deltaBits) <= 8
    ensures Pow2(4) == 16 && Pow2(6) == 64
  {
    assert Pow2(0) == 1 && Pow2(1) == 2 && Pow2(2) == 4 && Pow2(3) == 8 && Pow2(4) == 16 && Pow2(5) == 32 && Pow2(6) == 64;
  }

  /** The next scale factor after value: an escape code brings a fresh one, any other code a difference. */
  function NextScale(data: seq<byte>, size: nat, bit: nat, deltaBits: nat, value: nat): Unpacked
    requires size <= 8 * |data|
  {
    match FieldAt(data, size, bit, deltaBits)
    case NoField => Stopped
    case Field(delta, end) =>
      if delta == MaxDelta(deltaBits) then
        match FieldAt(data, size, end, 6)
        case NoField => Stopped
        case Field(v, end') => Values([v], end')
      else
        var v := value + delta - Half(deltaBits);
        if v < 0 || v >= 64 then Invalid([]) else Values([v], end)
  }

  /** The first n scale factors (n > 0), coded as differences. */
  function DeltaScales(data: seq<byte>, size: nat, bit: nat, deltaBits: nat, n: nat): (u: Unpacked)
    requires size <= 8 * |data| && n > 0
    ensures u.Values? ==> |u.vs| == n
    ensures !u.Stopped? ==> 0 < |u.vs| <= n && forall i :: 0 <= i < |u.vs| ==> u.vs[i] < 64
  {
    assert Pow2(6) == 64;
    if n == 1 then
      match FieldAt(data, size, bit, 6)
      case NoField => Stopped
      case Field(v, end) => Values([v], end)
    else
      var before := DeltaScales(data, size, bit, deltaBits, n - 1);
      if !before.Values? then before else
        match NextScale(data, size, before.end, deltaBits, before.vs[n - 2])
        case Stopped => Stopped
        case Invalid(_) => Invalid(before.vs)
        case Values(v, end) => Values(before.vs + v, end)
  }

  /** Any code but the highest is a difference around the middle one. */
  lemma NextScaleDifference(data: seq<byte>, size: nat, bit: nat, deltaBits: nat, value: nat, code: nat)
    requires size <= 8 * |data| && FieldAt(data, size, bit, deltaBits) == Field(code, bit + deltaBits)
    requires code != MaxDelta(deltaBits) && 0 <= value + code - Half(deltaBits) < 64
    ensures NextScale(data, size, bit, deltaBits, value) == Values([value + code - Half(deltaBits)], bit + deltaBits)
  {
    hide FieldAt, MaxDelta, Half, Pow2;
  }

  /** The highest one brings a value of its own. */
  lemma NextScaleEscape(data: seq<byte>, size: nat, bit: nat, deltaBits: nat, value: nat, v: nat)
    requires size <= 8 * |data| && FieldAt(data, size, bit, deltaBits) == Field(MaxDelta(deltaBits), bit + deltaBits)
    requires FieldAt(data, size, bit + deltaBits, 6) == Field(v, bit + deltaBits + 6)
    ensures NextScale(data, size, bit, deltaBits, value) == Values([v], bit + deltaBits + 6)
  {
    hide FieldAt, MaxDelta, Half, Pow2;
  }

  lemma DeltaScalesNext(data: seq<byte>, size: nat, bit: nat, deltaBits: nat, n: nat)
    requires size <= 8 * |data| && n > 1 && DeltaScales(data, size, bit, deltaBits, n - 1).Values?
    ensures var before := DeltaScales(data, size, bit, deltaBits, n - 1);
      |before.vs| == n - 1
      && var next := NextScale(data, size, before.end, deltaBits, before.vs[n - 2]);
         next.Values? ==> DeltaScales(data, size, bit, deltaBits, n) == Values(before.vs + next.vs, next.end)
  {
    hide NextScale, FieldAt, Pow2;
  }

  lemma DeltaScalesFirst(data: seq<byte>, size: nat, bit: nat, deltaBits: nat, v: nat)
    requires size <= 8 * |data| && FieldAt(data, size, bit, 6) == Field(v, bit + 6)
    ensures DeltaScales(data, size, bit, deltaBits, 1) == Values([v], bit + 6)
  {
    hide FieldAt, Pow2;
  }

  /** n fields of the same width. */
  function FixedFields(data: seq<byte>, size: nat, bit: nat, width: nat, n: nat): (u: Unpacked)
    requires size <= 8 * |data|
    ensures !u.Invalid?
    ensures u.Values? ==> |u.vs| == n && forall i :: 0 <= i < |u.vs| ==> u.vs[i] < Pow2(width)
  {
    if n == 0 then Values([], bit) else
      var before := FixedFields(data, size, bit, width, n - 1);
      if before.Stopped? then Stopped else
        match FieldAt(data, size, before.end, width)
        case NoField => Stopped
        case Field(v, end) => Values(before.vs + [v], end)
  }

  lemma FixedFieldsNext(data: seq<byte>, size: nat, bit: nat, width: nat, n: nat)
    requires size <= 8 * |data| && n > 0 && FixedFields(data, size, bit, width, n - 1).Values?
    ensures var before := FixedFields(data, size, bit, width, n - 1);
      var f := FieldAt(data, size, before.end, width);
      FixedFields(data, size, bit, width, n) == if f.Field? then Values(before.vs + [f.v], f.end) else Stopped
  {
    hide FieldAt;
  }

  /** All 128 scale factors after csCount fixed or difference-coded ones, or all zero; an invalid one ends them early. */
  function CodedScales(data: seq<byte>, size: nat, bit: nat, deltaBits: nat, before: seq<nat>, csCount: nat): (u: Unpacked)
    requires size <= 8 * |data| && |before| == 128 && csCount <= 128
    ensures !u.Stopped? ==> |u.vs| == 128
  {
    if deltaBits == 0 then Values(seq(128, _ => 0), bit) else
      var n := if deltaBits < 6 && csCount == 0 then 1 else csCount;
      match if deltaBits >= 6 then FixedFields(data, size, bit, 6, csCount) else DeltaScales(data, size, bit, deltaBits, n)
      case Stopped => Stopped
      case Invalid(vs) => Invalid(vs + before[|vs|..])
      case Values(vs, end) => Values(vs + before[n..], end)
  }

  lemma CodedScalesParts(data: seq<byte>, size: nat, bit: nat, deltaBits: nat, before: seq<nat>, csCount: nat, vs: seq<nat>,
                         end: nat)
    requires size <= 8 * |data| && |before| == 128 && csCount <= 128 && deltaBits > 0
    requires |vs| == if deltaBits < 6 && csCount == 0 then 1 else csCount
    requires deltaBits >= 6 ==> FixedFields(data, size, bit, 6, csCount) == Values(vs, end)
    requires deltaBits < 6 ==> |vs| > 0 && DeltaScales(data, size, bit, deltaBits, |vs|) == Values(vs, end)
    ensures CodedScales(data, size, bit, deltaBits, before, csCount) == Values(vs + before[|vs|..], end)
  {
    hide FixedFields, DeltaScales;
  }

  /** The same with the three-bit code width in front. */
  function UnpackedScales(data: seq<byte>, size: nat, bit: nat, before: seq<nat>, csCount: nat): (u: Unpacked)
    requires size <= 8 * |data| && |before| == 128 && csCount <= 128
    ensures !u.Stopped? ==> |u.vs| == 128
  {
    match FieldAt(data, size, bit, 3)
    case NoField => Stopped
    case Field(deltaBits, end) => CodedScales(data, size, end, deltaBits, before, csCount)
  }

  // ---------- the high-frequency scales that version 3 keeps with the scale factors ----------

  function ExtraCount(channelType: ChannelType, hfrGroupCount: nat, version: nat): nat
  {
    if channelType.StereoSecondary? || hfrGroupCount == 0 || version <= HCA_VERSION_200 then 0 else hfrGroupCount
  }

  /** Scale factors to read, in wrapping unsigned arithmetic. */
  function CsCount(codedCount: nat, extra: nat): nat { (codedCount + extra) % WORD }

  /** Deriving the high-frequency scales reads the slot after the last one, or counts down past slot zero. */
  predicate DerivePanics(csCount: nat, extra: nat)
  {
    extra > 0 && (csCount >= 128 || extra > csCount + 1)
  }

  /** Without wrap-around that happens exactly with 128 scale factors; a wrapped count always panics. */
  lemma DerivePanicsExactly(codedCount: nat, extra: nat)
    requires codedCount <= 128 && extra < WORD && CsCount(codedCount, extra) <= 128
    ensures codedCount + extra <= 128 ==> CsCount(codedCount, extra) == codedCount + extra
    ensures DerivePanics(CsCount(codedCount, extra), extra) <==> extra > 0 && codedCount + extra >= 128
  {
    var sum := codedCount + extra;
    if sum < WORD {
      assert sum % WORD == sum;
    } else {
      assert sum % WORD == sum - WORD;
    }
  }

  /** The last extra slots take the scale factors extra places below csCount, one place too far up. */
  function Derived(sf: seq<nat>, csCount: nat, extra: nat): (r: seq<nat>)
    requires |sf| == 128 && !DerivePanics(csCount, extra)
    ensures |r| == 128
  {
    seq(128, j requires 0 <= j < 128 => if j < 128 - extra then sf[j] else sf[csCount - (127 - j)])
  }

  // ---------- intensities ----------

  /** Intensities read so far, the cursor, and whether the difference code stayed in range. */
  datatype Levels = Levels(vs: seq<nat>, end: nat, ok: bool) | Broken

  /** The intensity after value: at most one value, none when it leaves the range. */
  function NextLevel(data: seq<byte>, size: nat, bit: nat, deltaBits: nat, value: nat): (l: Levels)
    requires size <= 8 * |data| && value < 16
    ensures l.Levels? ==> |l.vs| == (if l.ok then 1 else 0) && forall i :: 0 <= i < |l.vs| ==> l.vs[i] < 16
  {
    assert Pow2(4) == 16;
    match FieldAt(data, size, bit, deltaBits + 1)
    case NoField => Broken
    case Field(delta, end) =>
      if delta == MaxDelta(deltaBits + 1) then
        match FieldAt(data, size, end, 4)
        case NoField => Broken
        case Field(v, end') => Levels([v], end', true)
      else
        var v := value + delta - Half(deltaBits + 1);
        if v < 0 || v > 15 then Levels([], end, false) else Levels([v], end, true)
  }

  /** The first n of eight intensities, coded as differences from the first one. */
  function DeltaLevels(data: seq<byte>, size: nat, bit: nat, deltaBits: nat, first: nat, n: nat): (l: Levels)
    requires size <= 8 * |data| && first < 16 && n > 0
    ensures l.Levels? ==> 0 < |l.vs| <= n && (l.ok ==> |l.vs| == n) && forall i :: 0 <= i < |l.vs| ==> l.vs[i] < 16
  {
    if n == 1 then Levels([first], bit, true) else
      var before := DeltaLevels(data, size, bit, deltaBits, first, n - 1);
      if before.Broken? || !before.ok then before else
        match NextLevel(data, size, before.end, deltaBits, before.vs[n - 2])
        case Broken => Broken
        case Levels(v, end, ok) => Levels(before.vs + v, end, ok)
  }

  lemma DeltaLevelsNext(data: seq<byte>, size: nat, bit: nat, deltaBits: nat, first: nat, n: nat)
    requires size <= 8 * |data| && first < 16 && n > 1
    requires DeltaLevels(data, size, bit, deltaBits, first, n - 1).Levels?
    requires DeltaLevels(data, size, bit, deltaBits, first, n - 1).ok
    ensures var before := DeltaLevels(data, size, bit, deltaBits, first, n - 1);
      |before.vs| == n - 1 && before.vs[n - 2] < 16
      && DeltaLevels(data, size, bit, deltaBits, first, n)
         == match NextLevel(data, size, before.end, deltaBits, before.vs[n - 2])
            case Broken => Broken
            case Levels(v, end, ok) => Levels(before.vs + v, end, ok)
  {
    hide NextLevel;
  }

  lemma DeltaLevelsFirst(data: seq<byte>, size: nat, bit: nat, deltaBits: nat, first: nat)
    requires size <= 8 * |data| && first < 16
    ensures DeltaLevels(data, size, bit, deltaBits, first, 1) == Levels([first], bit, true)
  {
  }

  /** First and seven more intensities of four bits each. */
  function FixedLevels(data: seq<byte>, size: nat, bit: nat, first: nat): (l: Levels)
    requires size <= 8 * |data|
    ensures l.Levels? ==> |l.vs| == 8
  {
    var u := FixedFields(data, size, bit, 4, 7);
    if u.Values? then Levels([first] + u.vs, u.end, true) else Broken
  }

  /** After the first intensity a two-bit width code: three for fixed width, else the width of differences less one. */
  function CodedLevels(data: seq<byte>, size: nat, bit: nat, before: seq<nat>, first: nat): (l: Levels)
    requires size <= 8 * |data| && |before| == 8 && first < 16
    ensures l.Levels? ==> |l.vs| == 8
  {
    match FieldAt(data, size, bit, 2)
    case NoField => Broken
    case Field(deltaBits, end) =>
      if deltaBits == 3 then FixedLevels(data, size, end, first) else
        var l := DeltaLevels(data, size, end, deltaBits, first, 8);
        if l.Broken? then Broken else Levels(l.vs + before[|l.vs|..], l.end, l.ok)
  }

  lemma NextLevelDifference(data: seq<byte>, size: nat, bit: nat, deltaBits: nat, value: nat, code: nat)
    requires size <= 8 * |data| && value < 16 && FieldAt(data, size, bit, deltaBits + 1) == Field(code, bit + deltaBits + 1)
    requires code != MaxDelta(deltaBits + 1) && 0 <= value + code - Half(deltaBits + 1) < 16
    ensures NextLevel(data, size, bit, deltaBits, value)
         == Levels([value + code - Half(deltaBits + 1)], bit + deltaBits + 1, true)
  {
    hide FieldAt, MaxDelta, Half, Pow2;
  }

  lemma NextLevelEscape(data: seq<byte>, size: nat, bit: nat, deltaBits: nat, value: nat, v: nat)
    requires size <= 8 * |data| && value < 16
    requires FieldAt(data, size, bit, deltaBits + 1) == Field(MaxDelta(deltaBits + 1), bit + deltaBits + 1)
    requires FieldAt(data, size, bit + deltaBits + 1, 4) == Field(v, bit + deltaBits + 5)
    ensures NextLevel(data, size, bit, deltaBits, value) == Levels([v], bit + deltaBits + 5, true)
  {
    hide FieldAt, MaxDelta, Half, Pow2;
  }

  lemma CodedLevelsParts(data: seq<byte>, size: nat, bit: nat, before: seq<nat>, first: nat, code: nat)
    requires size <= 8 * |data| && |before| == 8 && first < 16 && FieldAt(data, size, bit, 2) == Field(code, bit + 2)
    ensures code == 3 ==> CodedLevels(data, size, bit, before, first) == FixedLevels(data, size, bit + 2, first)
    ensures code != 3 ==>
      var l := DeltaLevels(data, size, bit + 2, code, first, 8);
      l.Levels? && |l.vs| == 8 ==> CodedLevels(data, size, bit, before, first) == l
  {
    hide FieldAt, FixedLevels, DeltaLevels;
  }

  /** What the intensity field of a secondary channel says: up to version 2.00 fifteen keeps the other seven. */
  function UnpackedLevels(data: seq<byte>, size: nat, bit: nat, before: seq<nat>, version: nat): (l: Levels)
    requires size <= 8 * |data| && |before| == 8
    ensures l.Levels? ==> |l.vs| == 8
  {
    var first := Peek(data, size, bit, 4);
    if first.Panic? then Broken
    else if version <= HCA_VERSION_200 then
      if first.v < 15 then FixedLevels(data, size, bit + 4, first.v) else Levels(before[0 := first.v], bit, true)
    else if first.v >= 15 then Levels(seq(8, _ => 7), bit + 4, true)
    else CodedLevels(data, size, bit + 4, before, first.v)
  }

  lemma UnpackedLevelsParts(data: seq<byte>, size: nat, bit: nat, before: seq<nat>, version: nat, first: nat)
    requires size <= 8 * |data| && |before| == 8 && Peek(data, size, bit, 4) == Bits(first) && first < 15
    ensures UnpackedLevels(data, size, bit, before, version)
         == if version <= HCA_VERSION_200 then FixedLevels(data, size, bit + 4, first)
            else CodedLevels(data, size, bit + 4, before, first)
  {
    hide Peek, FixedLevels, CodedLevels;
  }

  // ---------- the side information of one channel ----------

  /** Rejected: the slots written before the invalid scale factor keep what they got. */
  datatype Scales = ScalesRead(vs: seq<nat>, end: nat) | ScalesRejected(vs: seq<nat>) | ScalesPanicked

  /** What unpacking scale factors leaves in all slots; only the slots it does not write keep their contents. */
  function ScalesAfter(data: seq<byte>, size: nat, bit: nat, channelType: ChannelType, codedCount: nat, before: seq<nat>,
                       hfrGroupCount: nat, version: nat): (s: Scales)
    requires size <= 8 * |data| && |before| == 128
    ensures !s.ScalesPanicked? ==> |s.vs| == 128
  {
    var extra := ExtraCount(channelType, hfrGroupCount, version);
    var csCount := CsCount(codedCount, extra);
    if FieldAt(data, size, bit, 3).NoField? then ScalesPanicked
    else if csCount > 128 then ScalesRejected(before)
    else
      match UnpackedScales(data, size, bit, before, csCount)
      case Stopped => ScalesPanicked
      case Invalid(vs) => ScalesRejected(vs)
      case Values(vs, end) => WithDerived(vs, end, csCount, extra)
  }

  function WithDerived(vs: seq<nat>, end: nat, csCount: nat, extra: nat): (s: Scales)
    requires |vs| == 128
    ensures !s.ScalesPanicked? ==> |s.vs| == 128
  {
    if DerivePanics(csCount, extra) then ScalesPanicked
    else ScalesRead(Derived(vs, csCount, extra), end)
  }

  lemma ScalesParts(data: seq<byte>, size: nat, bit: nat, channelType: ChannelType, codedCount: nat, before: seq<nat>,
                    hfrGroupCount: nat, version: nat, vs: seq<nat>, end: nat)
    requires size <= 8 * |data| && |before| == |vs| == 128
    requires var extra := ExtraCount(channelType, hfrGroupCount, version);
      var csCount := CsCount(codedCount, extra);
      csCount <= 128 && !DerivePanics(csCount, extra) && UnpackedScales(data, size, bit, before, csCount) == Values(vs, end)
    ensures var extra := ExtraCount(channelType, hfrGroupCount, version);
      ScalesAfter(data, size, bit, channelType, codedCount, before, hfrGroupCount, version)
      == ScalesRead(Derived(vs, CsCount(codedCount, extra), extra), end)
  {
    hide FieldAt, CodedScales, ExtraCount, CsCount, DerivePanics, Derived;
  }

  /** With all scale factors readable, unpacking panics exactly when there are groups and 128 or more scale factors. */
  lemma ScalesPanicExactly(data: seq<byte>, size: nat, bit: nat, channelType: ChannelType, codedCount: nat, before: seq<nat>,
                           hfrGroupCount: nat, version: nat)
    requires size <= 8 * |data| && |before| == 128 && codedCount <= 128 && hfrGroupCount < WORD
    requires var csCount := CsCount(codedCount, ExtraCount(channelType, hfrGroupCount, version));
      csCount <= 128 && UnpackedScales(data, size, bit, before, csCount).Values?
    ensures var extra := ExtraCount(channelType, hfrGroupCount, version);
      ScalesAfter(data, size, bit, channelType, codedCount, before, hfrGroupCount, version).ScalesPanicked?
      <==> extra > 0 && codedCount + extra >= 128
  {
    DerivePanicsExactly(codedCount, ExtraCount(channelType, hfrGroupCount, version));
    hide CodedScales, CsCount, DerivePanics, Derived;
  }

  /** A secondary channel has its coded scale factors and nothing else, in every version. */
  lemma SecondaryScales(data: seq<byte>, size: nat, bit: nat, codedCount: nat, before: seq<nat>, hfrGroupCount: nat, version: nat)
    requires size <= 8 * |data| && |before| == 128 && codedCount <= 128
    requires UnpackedScales(data, size, bit, before, codedCount).Values?
    ensures var u := UnpackedScales(data, size, bit, before, codedCount);
      ScalesAfter(data, size, bit, StereoSecondary, codedCount, before, hfrGroupCount, version) == ScalesRead(u.vs, u.end)
  {
    hide *;
    SecondaryCounts(codedCount, hfrGroupCount, version);
    var u := UnpackedScales(data, size, bit, before, codedCount);
    ScalesParts(data, size, bit, StereoSecondary, codedCount, before, hfrGroupCount, version, u.vs, u.end);
    NothingDerived(u.vs, codedCount);
  }

  lemma SecondaryCounts(codedCount: nat, hfrGroupCount: nat, version: nat)
    requires codedCount <= 128
    ensures ExtraCount(StereoSecondary, hfrGroupCount, version) == 0
    ensures CsCount(codedCount, 0) == codedCount && !DerivePanics(codedCount, 0)
  {
  }

  /** No stream at all gives such a channel its scale factors. */
  lemma NeverRead(data: seq<byte>, size: nat, bit: nat, channelType: ChannelType, codedCount: nat, before: seq<nat>,
                  hfrGroupCount: nat, version: nat)
    requires size <= 8 * |data| && |before| == 128 && codedCount <= 128 && hfrGroupCount < WORD
    requires var extra := ExtraCount(channelType, hfrGroupCount, version); extra > 0 && codedCount + extra >= 128
    ensures !ScalesAfter(data, size, bit, channelType, codedCount, before, hfrGroupCount, version).ScalesRead?
  {
    hide UnpackedScales, FieldAt, Derived;
    var extra := ExtraCount(channelType, hfrGroupCount, version);
    if CsCount(codedCount, extra) <= 128 {
      DerivePanicsExactly(codedCount, extra);
    }
    hide CsCount, DerivePanics;
  }

  /** ok: no difference left the range; otherwise the frame goes on with what was read. */
  datatype Intensities = IntensitiesRead(scaleFactors: seq<nat>, intensity: seq<nat>, end: nat, ok: bool) | IntensitiesPanicked

  function IntensitiesAfter(data: seq<byte>, size: nat, bit: nat, channelType: ChannelType, scaleFactors: seq<nat>,
                            intensity: seq<nat>, hfrGroupCount: nat, version: nat): (i: Intensities)
    requires size <= 8 * |data| && |scaleFactors| == 128 && |intensity| == 8
    ensures i.IntensitiesRead? ==> |i.scaleFactors| == 128 && |i.intensity| == 8
  {
    if channelType.StereoSecondary? then
      match UnpackedLevels(data, size, bit, intensity, version)
      case Broken => IntensitiesPanicked
      case Levels(vs, end, ok) => IntensitiesRead(scaleFactors, vs, end, ok)
    else if version > HCA_VERSION_200 then IntensitiesRead(scaleFactors, intensity, bit, true)
    else if hfrGroupCount > 128 then IntensitiesPanicked
    else
      var u := FixedFields(data, size, bit, 6, hfrGroupCount);
      if u.Values? then IntensitiesRead(scaleFactors[..128 - hfrGroupCount] + u.vs, intensity, u.end, true)
      else IntensitiesPanicked
  }

  datatype SideInfo = SideRead(scaleFactors: seq<nat>, intensity: seq<nat>, end: nat) | SideRejected(scaleFactors: seq<nat>) | SidePanicked

  /** Scale factors, then intensities: an invalid intensity rejects nothing. */
  function SideAfter(data: seq<byte>, size: nat, bit: nat, channelType: ChannelType, codedCount: nat,
                     scaleFactors: seq<nat>, intensity: seq<nat>, hfrGroupCount: nat, version: nat): (s: SideInfo)
    requires size <= 8 * |data| && |scaleFactors| == 128 && |intensity| == 8
    ensures s.SideRead? ==> |s.scaleFactors| == 128 && |s.intensity| == 8
    ensures s.SideRejected? ==> |s.scaleFactors| == 128
  {
    match ScalesAfter(data, size, bit, channelType, codedCount, scaleFactors, hfrGroupCount, version)
    case ScalesRejected(vs) => SideRejected(vs)
    case ScalesPanicked => SidePanicked
    case ScalesRead(vs, end) =>
      match IntensitiesAfter(data, size, end, channelType, vs, intensity, hfrGroupCount, version)
      case IntensitiesPanicked => SidePanicked
      case IntensitiesRead(sf, levels, end', _) => SideRead(sf, levels, end')
  }

  // ---------- every outcome stays in range ----------

  predicate Below(vs: seq<nat>, bound: nat) { forall i :: 0 <= i < |vs| ==> vs[i] < bound }

  lemma BelowParts(a: seq<nat>, b: seq<nat>, k: nat, bound: nat)
    requires Below(a, bound) && Below(b, bound) && k <= |b|
    ensures Below(a + b[k..], bound) && Below(b[..k] + a, bound)
  {
  }

  lemma FieldsBelow(data: seq<byte>, size: nat, bit: nat, n: nat)
    requires size <= 8 * |data|
    ensures var u := FixedFields(data, size, bit, 6, n); u.Values? ==> Below(u.vs, 64)
    ensures var u := FixedFields(data, size, bit, 4, n); u.Values? ==> Below(u.vs, 16)
  {
    assert Pow2(4) == 16 && Pow2(6) == 64;
    hide FixedFields, Pow2;
  }

  lemma CodedInRange(data: seq<byte>, size: nat, bit: nat, deltaBits: nat, before: seq<nat>, csCount: nat)
    requires size <= 8 * |data| && |before| == 128 && csCount <= 128 && Below(before, 64)
    ensures var u := CodedScales(data, size, bit, deltaBits, before, csCount); !u.Stopped? ==> Below(u.vs, 64)
  {
    hide FixedFields, DeltaScales, Below;
    if deltaBits == 0 {
      assert Below(seq(128, _ => 0), 64) by {
        hide *;
        NoneBelow();
      }
    } else if deltaBits >= 6 {
      FieldsBelow(data, size, bit, csCount);
      var u := FixedFields(data, size, bit, 6, csCount);
      if u.Values? {
        BelowParts(u.vs, before, csCount, 64);
      }
    } else {
      var n := if csCount == 0 then 1 else csCount;
      var u := DeltaScales(data, size, bit, deltaBits, n);
      if !u.Stopped? {
        assert Below(u.vs, 64) by {
          IsBelow(u.vs, 64);
        }
        BelowParts(u.vs, before, |u.vs|, 64);
      }
    }
  }

  lemma IsBelow(vs: seq<nat>, bound: nat)
    requires forall i :: 0 <= i < |vs| ==> vs[i] < bound
    ensures Below(vs, bound)
  {
  }

  lemma NoneBelow()
    ensures Below(seq(128, _ => 0), 64)
  {
  }

  lemma DerivedBelow(vs: seq<nat>, csCount: nat, extra: nat, bound: nat)
    requires |vs| == 128 && !DerivePanics(csCount, extra) && Below(vs, bound)
    ensures Below(Derived(vs, csCount, extra), bound)
  {
  }

  lemma ScalesInRange(data: seq<byte>, size: nat, bit: nat, channelType: ChannelType, codedCount: nat, before: seq<nat>,
                      hfrGroupCount: nat, version: nat)
    requires size <= 8 * |data| && |before| == 128 && Below(before, 64)
    ensures var s := ScalesAfter(data, size, bit, channelType, codedCount, before, hfrGroupCount, version);
      !s.ScalesPanicked? ==> Below(s.vs, 64)
  {
    var extra := ExtraCount(channelType, hfrGroupCount, version);
    var csCount := CsCount(codedCount, extra);
    var width := FieldAt(data, size, bit, 3);
    hide FieldAt, CodedScales, Derived, DerivePanics, CsCount, Below, ExtraCount;
    if csCount <= 128 && width.Field? {
      CodedInRange(data, size, width.end, width.v, before, csCount);
      var u := UnpackedScales(data, size, bit, before, csCount);
      if u.Values? && !DerivePanics(csCount, extra) {
        DerivedBelow(u.vs, csCount, extra, 64);
      }
    }
  }

  lemma LevelsInRange(data: seq<byte>, size: nat, bit: nat, before: seq<nat>, version: nat)
    requires size <= 8 * |data| && |before| == 8 && Below(before, 16)
    ensures var l := UnpackedLevels(data, size, bit, before, version); l.Levels? ==> Below(l.vs, 16)
  {
    assert Pow2(4) == 16;
    PeekBound(data, size, bit, 4);
    FieldsBelow(data, size, bit + 4, 7);
    var width := FieldAt(data, size, bit + 4, 2);
    if width.Field? {
      FieldsBelow(data, size, width.end, 7);
    }
    hide Peek, FieldAt, FixedFields, DeltaLevels, Pow2;
  }

  lemma SideParts(data: seq<byte>, size: nat, bit: nat, channelType: ChannelType, codedCount: nat,
                  scaleFactors: seq<nat>, intensity: seq<nat>, hfrGroupCount: nat, version: nat)
    requires size <= 8 * |data| && |scaleFactors| == 128 && |intensity| == 8
    requires ScalesAfter(data, size, bit, channelType, codedCount, scaleFactors, hfrGroupCount, version).ScalesRead?
    ensures var first := ScalesAfter(data, size, bit, channelType, codedCount, scaleFactors, hfrGroupCount, version);
      var s := SideAfter(data, size, bit, channelType, codedCount, scaleFactors, intensity, hfrGroupCount, version);
      |first.vs| == 128
      && var second := IntensitiesAfter(data, size, first.end, channelType, first.vs, intensity, hfrGroupCount, version);
         s == if second.IntensitiesRead? then SideRead(second.scaleFactors, second.intensity, second.end) else SidePanicked
  {
    hide ScalesAfter, IntensitiesAfter;
  }

  /** Whatever the bytes are, scale factors stay below 64 and intensities below 16. */
  lemma SideInRange(data: seq<byte>, size: nat, bit: nat, channelType: ChannelType, codedCount: nat,
                    scaleFactors: seq<nat>, intensity: seq<nat>, hfrGroupCount: nat, version: nat)
    requires size <= 8 * |data| && |scaleFactors| == 128 && |intensity| == 8
    requires Below(scaleFactors, 64) && Below(intensity, 16)
    ensures var s := SideAfter(data, size, bit, channelType, codedCount, scaleFactors, intensity, hfrGroupCount, version);
      (!s.SidePanicked? ==> Below(s.scaleFactors, 64)) && (s.SideRead? ==> Below(s.intensity, 16))
  {
    ScalesInRange(data, size, bit, channelType, codedCount, scaleFactors, hfrGroupCount, version);
    var s := ScalesAfter(data, size, bit, channelType, codedCount, scaleFactors, hfrGroupCount, version);
    hide ScalesAfter, UnpackedLevels, FixedFields, Below;
    if s.ScalesRead? {
      LevelsInRange(data, size, s.end, intensity, version);
      if hfrGroupCount <= 128 {
        FieldsBelow(data, size, s.end, hfrGroupCount);
        var u := FixedFields(data, size, s.end, 6, hfrGroupCount);
        if u.Values? {
          BelowParts(u.vs, s.vs, 128 - hfrGroupCount, 64);
        }
      }
    }
  }

  /** Up to version 2.00 the high-frequency scales leave the coded scale factors alone, whenever both fit. */
  lemma CodedScalesKept(data: seq<byte>, size: nat, bit: nat, channelType: ChannelType, codedCount: nat,
                        scaleFactors: seq<nat>, intensity: seq<nat>, hfrGroupCount: nat, version: nat)
    requires size <= 8 * |data| && |scaleFactors| == 128 && |intensity| == 8
    requires version <= HCA_VERSION_200 && codedCount + hfrGroupCount <= 128
    ensures var s := SideAfter(data, size, bit, channelType, codedCount, scaleFactors, intensity, hfrGroupCount, version);
      var u := UnpackedScales(data, size, bit, scaleFactors, codedCount);
      s.SideRead? ==> u.Values? && s.scaleFactors[..codedCount] == u.vs[..codedCount]
  {
    assert codedCount % WORD == codedCount;
    hide UnpackedScales, UnpackedLevels, FixedFields, FieldAt, Derived;
    var u := UnpackedScales(data, size, bit, scaleFactors, codedCount);
    if u.Values? {
      NothingDerived(u.vs, codedCount);
      var scales := FixedFields(data, size, u.end, 6, hfrGroupCount);
      if scales.Values? {
        PrefixKept(u.vs, 128 - hfrGroupCount, scales.vs, codedCount);
      }
    }
  }

  lemma NothingDerived(vs: seq<nat>, csCount: nat)
    requires |vs| == 128
    ensures Derived(vs, csCount, 0) == vs
  {
  }

  lemma PrefixKept(vs: seq<nat>, k: nat, tail: seq<nat>, n: nat)
    requires n <= k <= |vs|
    ensures (vs[..k] + tail)[..n] == vs[..n]
  {
  }

  /**
    In version 3 the coded scale factors are those read in this frame, and the last slots hold the
    scales of the groups: each that of the scale factor coded for the next group, the last one
    whatever follows the coded ones.
   */
  lemma CodedScalesRead(data: seq<byte>, size: nat, bit: nat, channelType: ChannelType, codedCount: nat,
                        scaleFactors: seq<nat>, intensity: seq<nat>, hfrGroupCount: nat, version: nat)
    requires size <= 8 * |data| && |scaleFactors| == 128 && |intensity| == 8 && version > HCA_VERSION_200
    requires codedCount <= 128 && hfrGroupCount < WORD
    ensures var extra := ExtraCount(channelType, hfrGroupCount, version);
      var s := SideAfter(data, size, bit, channelType, codedCount, scaleFactors, intensity, hfrGroupCount, version);
      s.SideRead? ==>
        codedCount + extra <= 128 && (extra > 0 ==> codedCount + extra <= 127)
        && var u := UnpackedScales(data, size, bit, scaleFactors, codedCount + extra);
           u.Values? && s.scaleFactors[..codedCount] == u.vs[..codedCount]
           && forall j :: 128 - extra <= j < 128 ==> s.scaleFactors[j] == u.vs[codedCount + extra - (127 - j)]
  {
    hide UnpackedScales, UnpackedLevels, FixedFields, FieldAt;
    var extra := ExtraCount(channelType, hfrGroupCount, version);
    var csCount := CsCount(codedCount, extra);
    if csCount <= 128 {
      DerivePanicsExactly(codedCount, extra);
      hide CsCount;
      var u := UnpackedScales(data, size, bit, scaleFactors, csCount);
      if u.Values? && extra > 0 && codedCount + extra <= 127 {
        assert Derived(u.vs, csCount, extra)[..codedCount] == u.vs[..codedCount];
      }
    }
  }

  /** The difference in wrapping byte arithmetic, masked to six bits. */
  function WrappedScale(value: nat, delta: nat, half: nat): nat
  {
    (((value - half) % 256 + delta) % 256) % 64
  }

  /** Whenever the range check lets a difference pass, wrapping made no difference. */
  lemma WrappedScaleAgrees(value: nat, delta: nat, half: nat)
    requires value < 64 && delta < 32 && half < 32 && 0 <= value + delta - half < 64
    ensures WrappedScale(value, delta, half) == value + delta - half
  {
    WrapDifference(value, delta, half);
  }

  lemma WrapDifference(value: nat, delta: nat, half: nat)
    requires value < 64 && delta < 32 && half < 32
    ensures ((value - half) % 256 + delta) % 256 == if value + delta < half then value + delta - half + 256 else value + delta - half
  {
    var difference: int := value - half;
    if difference < 0 {
      assert difference % 256 == difference + 256;
    } else {
      assert difference % 256 == difference;
    }
  }

  /** The same for intensities, which are checked after wrapping. */
  function WrappedIntensity(value: nat, delta: nat, half: nat): nat
  {
    ((value - half) % 256 + delta) % 256
  }

  lemma WrappedIntensityAgrees(value: nat, delta: nat, half: nat)
    requires value < 16 && delta < 16 && half < 16
    ensures WrappedIntensity(value, delta, half) <= 15 <==> 0 <= value + delta - half <= 15
    ensures WrappedIntensity(value, delta, half) <= 15 ==> WrappedIntensity(value, delta, half) == value + delta - half
  {
    WrapDifference(value, delta, half);
  }

  lemma SameAfter(s: seq<nat>, t: seq<nat>, k: nat)
    requires |s| == |t| && 0 < k <= |s| && forall i :: 0 < i < |s| ==> s[i] == t[i]
    ensures s[k..] == t[k..]
  {
  }

  lemma OneWritten(vs: seq<nat>, before: seq<nat>, i: nat, v: nat)
    requires |vs| == i < |before|
    ensures (vs + before[i..])[i := v] == vs + [v] + before[i + 1..]
  {
  }

  class StChannel {
    var channelType: ChannelType
    var codedCount: nat
    const intensity: array<nat>
    const scaleFactors: array<nat>

    ghost predicate Shape()
      reads this
    {
      intensity.Length == 8 && scaleFactors.Length == 128 && intensity != scaleFactors && codedCount <= 128
    }

    /** The ranges every later table look-up relies on. */
    ghost predicate Valid()
      reads this, intensity, scaleFactors
    {
      Shape()
      && (forall i :: 0 <= i < 128 ==> scaleFactors[i] < 64)
      && (forall i :: 0 <= i < 8 ==> intensity[i] < 16)
    }

    constructor (channelType: ChannelType, codedCount: nat)
      requires codedCount <= 128
      ensures Valid() && fresh(intensity) && fresh(scaleFactors)
      ensures this.channelType == channelType && this.codedCount == codedCount
      ensures forall i :: 0 <= i < 128 ==> scaleFactors[i] == 0
      ensures forall i :: 0 <= i < 8 ==> intensity[i] == 0
    {
      this.channelType := channelType;
      this.codedCount := codedCount;
      intensity := new nat[8](_ => 0);
      scaleFactors := new nat[128](_ => 0);
    }

    /** Scale factors; version 3 derives the high-frequency scales from them. */
    method UnpackScaleFactors(br: ClData, hfrGroupCount: nat, version: nat) returns (status: Status)
      requires Valid() && br.Valid()
      modifies br`bit, scaleFactors
      ensures Valid() && br.Valid()
      ensures var s :=
          ScalesAfter(br.data, br.size, old(br.bit), channelType, codedCount, old(scaleFactors[..]), hfrGroupCount, version);
        status == (if s.ScalesRead? then Done else if s.ScalesRejected? then Rejected else Panicked)
        && (status.Done? ==> scaleFactors[..] == s.vs && br.bit == s.end)
        && (status.Rejected? ==> scaleFactors[..] == s.vs)
    {
      assert Pow2(3) == 8;
      hide Pow2, FieldAt, CodedScales, CsCount, DerivePanics, Derived;
      var extraCount := ExtraCount(channelType, hfrGroupCount, version);
      var csCount := CsCount(codedCount, extraCount);
      var width := ReadField(br, 3);
      if width.NoField? {
        return Panicked;
      }
      if csCount > 128 {
        return Rejected;
      }
      status := ScaleFactorValues(br, width.v, csCount);
      if !status.Done? {
        return;
      }
      var ok := DeriveHighFrequency(csCount, extraCount);
      status := if ok then Done else Panicked;
    }

    method ScaleFactorValues(br: ClData, deltaBits: nat, csCount: nat) returns (status: Status)
      requires Valid() && br.Valid() && csCount <= 128 && deltaBits < 8
      modifies br`bit, scaleFactors
      ensures Valid() && br.Valid()
      ensures var u := CodedScales(br.data, br.size, old(br.bit), deltaBits, old(scaleFactors[..]), csCount);
        status == (if u.Values? then Done else if u.Invalid? then Rejected else Panicked)
        && (status.Done? ==> br.bit == u.end)
        && (status.Done? || status.Rejected? ==> scaleFactors[..] == u.vs)
    {
      assert Pow2(6) == 64;
      hide Pow2, FixedFields, DeltaScales;
      ghost var before := scaleFactors[..];
      if deltaBits >= 6 {
        var ok := ReadFields(br, 6, scaleFactors, 0, csCount);
        assert ok ==> scaleFactors[..] == scaleFactors[0..csCount] + scaleFactors[csCount..];
        assert before[csCount..] == old(scaleFactors[csCount..]);
        status := if ok then Done else Panicked;
      } else if deltaBits > 0 {
        status := DeltaScaleFactors(br, deltaBits, csCount);
      } else {
        for i := 0 to 128
          modifies scaleFactors
          invariant forall k :: 0 <= k < i ==> scaleFactors[k] == 0
        {
          scaleFactors[i] := 0;
        }
        status := Done;
      }
    }

    /** The copy runs downwards and never reads a slot it has written. */
    method DeriveHighFrequency(csCount: nat, extraCount: nat) returns (ok: bool)
      requires Valid() && csCount <= 128
      modifies scaleFactors
      ensures Valid()
      ensures ok == !DerivePanics(csCount, extraCount)
      ensures ok ==> scaleFactors[..] == Derived(old(scaleFactors[..]), csCount, extraCount)
    {
      var i := 0;
      while i < extraCount
        modifies scaleFactors
        invariant 0 <= i <= extraCount && i <= csCount + 1 && (i > 0 ==> csCount <= 127)
        invariant forall k :: 0 <= k < 128 ==> scaleFactors[k] < 64
        invariant forall k :: 0 <= k < 128 - i ==> scaleFactors[k] == old(scaleFactors[k])
        invariant forall k :: 128 - i <= k < 128 ==> scaleFactors[k] == old(scaleFactors[csCount - (127 - k)])
      {
        if csCount < i || csCount - i >= 128 {
          return false;
        }
        scaleFactors[127 - i] := scaleFactors[csCount - i];
        i := i + 1;
      }
      ok := true;
    }

    /** Intensities of a secondary channel; high-frequency scales of any other up to version 2.00. */
    method UnpackIntensity(br: ClData, hfrGroupCount: nat, version: nat) returns (status: Status)
      requires Valid() && br.Valid()
      modifies br`bit, scaleFactors, intensity
      ensures Valid()
      ensures var i := IntensitiesAfter(br.data, br.size, old(br.bit), channelType, old(scaleFactors[..]),
                                        old(intensity[..]), hfrGroupCount, version);
        status == (if i.IntensitiesPanicked? then Panicked else if i.ok then Done else Rejected)
        && (i.IntensitiesRead? ==>
              scaleFactors[..] == i.scaleFactors && intensity[..] == i.intensity && br.bit == i.end)
      ensures br.Valid()
    {
      assert Pow2(6) == 64 && Pow2(4) == 16;
      status := Done;
      if channelType.StereoSecondary? {
        status := UnpackLevels(br, version);
      } else if version <= HCA_VERSION_200 {
        if hfrGroupCount > 128 {
          return Panicked;
        }
        var ok := ReadFields(br, 6, scaleFactors, 128 - hfrGroupCount, hfrGroupCount);
        assert scaleFactors[..] == scaleFactors[..128 - hfrGroupCount] + scaleFactors[128 - hfrGroupCount..];
        status := if ok then Done else Panicked;
      }
    }

    method UnpackLevels(br: ClData, version: nat) returns (status: Status)
      requires Valid() && br.Valid()
      modifies br`bit, intensity
      ensures Valid()
      ensures var l := UnpackedLevels(br.data, br.size, old(br.bit), old(intensity[..]), version);
        match l
        case Broken => status == Panicked
        case Levels(vs, end, ok) =>
          status == (if ok then Done else Rejected) && intensity[..] == vs && br.bit == end
    {
      assert Pow2(4) == 16;
      hide Pow2, CodedLevels, FixedLevels;
      var first := Peek(br.data, br.size, br.bit, 4);
      PeekBound(br.data, br.size, br.bit, 4);
      if first.Panic? {
        return Panicked;
      }
      var value := first.v;
      if version <= HCA_VERSION_200 {
        intensity[0] := value;
        status := Done;
        if value < 15 {
          br.Skip(4);
          status := FixedIntensities(br, value);
        }
      } else if value < 15 {
        br.Skip(4);
        status := CodedIntensities(br, value);
      } else {
        br.Skip(4);
        for i := 0 to 8
          modifies intensity
          invariant forall k :: 0 <= k < i ==> intensity[k] == 7
        {
          intensity[i] := 7;
        }
        status := Done;
      }
    }

    /** A width code, then seven intensities of four bits or as differences. */
    method CodedIntensities(br: ClData, value: nat) returns (status: Status)
      requires Valid() && br.Valid() && value < 15
      modifies br`bit, intensity
      ensures Valid()
      ensures var l := CodedLevels(br.data, br.size, old(br.bit), old(intensity[..]), value);
        match l
        case Broken => status == Panicked
        case Levels(vs, end, ok) =>
          status == (if ok then Done else Rejected) && intensity[..] == vs && br.bit == end
    {
      assert Pow2(2) == 4;
      hide Pow2, FieldAt, DeltaLevels, FixedLevels;
      var deltaBits := ReadField(br, 2);
      if deltaBits.NoField? {
        return Panicked;
      }
      intensity[0] := value;
      if deltaBits.v == 3 {
        status := FixedIntensities(br, value);
      } else {
        status := DeltaIntensities(br, deltaBits.v, value);
      }
    }

    method FixedIntensities(br: ClData, first: nat) returns (status: Status)
      requires Valid() && br.Valid() && first < 16 && intensity[0] == first
      modifies br`bit, intensity
      ensures Valid()
      ensures var l := FixedLevels(br.data, br.size, old(br.bit), first);
        status == (if l.Broken? then Panicked else Done) && (l.Levels? ==> intensity[..] == l.vs && br.bit == l.end)
    {
      assert Pow2(4) == 16;
      var ok := ReadFields(br, 4, intensity, 1, 7);
      assert ok ==> intensity[..] == intensity[..1] + intensity[1..8];
      status := if ok then Done else Panicked;
    }

    method DeltaIntensities(br: ClData, deltaBits: nat, first: nat) returns (status: Status)
      requires Valid() && br.Valid() && deltaBits < 3 && first < 16 && intensity[0] == first
      modifies br`bit, intensity
      ensures Valid()
      ensures var l := DeltaLevels(br.data, br.size, old(br.bit), deltaBits, first, 8);
        match l
        case Broken => status == Panicked
        case Levels(vs, end, ok) =>
          status == (if ok then Done else Rejected) && br.bit == end && intensity[..] == vs + old(intensity[..])[|vs|..]
    {
      hide FieldAt, NextLevel, DeltaLevels;
      var value := first;
      DeltaLevelsFirst(br.data, br.size, br.bit, deltaBits, first);
      ghost var l := DeltaLevels(br.data, br.size, br.bit, deltaBits, first, 1);
      for i := 1 to 8
        modifies br`bit, intensity
        invariant value < 16 && forall k :: 0 <= k < 8 ==> intensity[k] < 16
        invariant l == DeltaLevels(br.data, br.size, old(br.bit), deltaBits, first, i)
        invariant l.Levels? && l.ok && br.bit == l.end && value == l.vs[i - 1]
        invariant intensity[..i] == l.vs && forall k :: i <= k < 8 ==> intensity[k] == old(intensity[k])
      {
        ghost var vs := l.vs;
        DeltaLevelsNext(br.data, br.size, old(br.bit), deltaBits, first, i + 1);
        l := DeltaLevels(br.data, br.size, old(br.bit), deltaBits, first, i + 1);
        status, value := NextIntensity(br, deltaBits, value);
        if !status.Done? {
          LevelsStay(br.data, br.size, old(br.bit), deltaBits, first, i + 1, 8);
          assert intensity[..] == intensity[..i] + old(intensity[..])[i..];
          return;
        }
        intensity[i] := value;
        assert intensity[..i + 1] == vs + [value];
      }
      status := Done;
    }

    /** One step of the difference code, in the decoder's byte arithmetic. */
    method NextIntensity(br: ClData, deltaBits: nat, value: nat) returns (status: Status, next: nat)
      requires br.Valid() && deltaBits < 3 && value < 16
      modifies br`bit
      ensures next < 16
      ensures var l := NextLevel(br.data, br.size, old(br.bit), deltaBits, value);
        match l
        case Broken => status == Panicked
        case Levels(vs, end, ok) => status == (if ok then Done else Rejected) && br.bit == end && (ok ==> vs == [next])
    {
      DeltasSmall(deltaBits + 1);
      var bmax, half := MaxDelta(deltaBits + 1), Half(deltaBits + 1);
      hide Pow2, MaxDelta, Half, FieldAt, WrappedIntensity;
      next := value;
      var d := ReadField(br, deltaBits + 1);
      if d.NoField? {
        return Panicked, value;
      }
      if d.v == bmax {
        var f := ReadField(br, 4);
        if f.NoField? {
          return Panicked, value;
        }
        next := f.v;
      } else {
        WrappedIntensityAgrees(value, d.v, half);
        next := WrappedIntensity(value, d.v, half);
        if next > 15 {
          return Rejected, value;
        }
      }
      status := Done;
    }

    /** Fields of one width into consecutive slots. */
    method ReadFields(br: ClData, width: nat, slots: array<nat>, start: nat, n: nat) returns (ok: bool)
      requires br.Valid() && start + n <= slots.Length
      modifies br`bit, slots
      ensures var u := FixedFields(br.data, br.size, old(br.bit), width, n);
        ok == u.Values? && (ok ==> slots[start..start + n] == u.vs && br.bit == u.end)
      ensures slots[..start] == old(slots[..start]) && slots[start + n..] == old(slots[start + n..])
      ensures forall k :: 0 <= k < slots.Length ==> slots[k] < Pow2(width) || slots[k] == old(slots[k])
    {
      ghost var u := FixedFields(br.data, br.size, br.bit, width, 0);
      ok := true;
      for i := 0 to n
        invariant u == FixedFields(br.data, br.size, old(br.bit), width, i)
        invariant u.Values? && br.bit == u.end && slots[start..start + i] == u.vs
        invariant slots[..start] == old(slots[..start]) && slots[start + n..] == old(slots[start + n..])
        invariant forall k :: 0 <= k < slots.Length ==> slots[k] < Pow2(width) || slots[k] == old(slots[k])
      {
        var f := ReadField(br, width);
        u := FixedFields(br.data, br.size, old(br.bit), width, i + 1);
        if f.NoField? {
          FixedStaysStopped(br.data, br.size, old(br.bit), width, i + 1, n);
          ok := false;
          return;
        }
        slots[start + i] := f.v;
        assert slots[start..start + i + 1] == slots[start..start + i] + [f.v];
      }
    }

    method DeltaScaleFactors(br: ClData, deltaBits: nat, csCount: nat) returns (status: Status)
      requires Valid() && br.Valid() && csCount <= 128 && 0 < deltaBits < 6
      modifies br`bit, scaleFactors
      ensures Valid()
      ensures var n := if csCount == 0 then 1 else csCount;
        var u := DeltaScales(br.data, br.size, old(br.bit), deltaBits, n);
        status == (if u.Values? then Done else if u.Invalid? then Rejected else Panicked)
        && (status.Done? ==> scaleFactors[..] == u.vs + old(scaleFactors[..])[n..] && br.bit == u.end)
        && (status.Rejected? ==> scaleFactors[..] == u.vs + old(scaleFactors[..])[|u.vs|..])
    {
      ghost var n := if csCount == 0 then 1 else csCount;
      assert Pow2(6) == 64;
      hide Pow2, FieldAt, NextScale;
      var first := ReadField(br, 6);
      if first.NoField? {
        DeltaStays(br.data, br.size, old(br.bit), deltaBits, 1, n);
        return Panicked;
      }
      ghost var before := scaleFactors[..];
      scaleFactors[0] := first.v;
      ghost var start := scaleFactors[..];
      status := DeltaLoop(br, old(br.bit), deltaBits, csCount, first.v);
      SameAfter(before, start, n);
      ghost var u := DeltaScales(br.data, br.size, old(br.bit), deltaBits, n);
      if u.Invalid? {
        SameAfter(before, start, |u.vs|);
      }
    }

    /** The scale factors after the first. */
    method DeltaLoop(br: ClData, ghost start: nat, deltaBits: nat, csCount: nat, first: nat) returns (status: Status)
      requires Valid() && br.Valid() && csCount <= 128 && 0 < deltaBits < 6 && first < 64 && scaleFactors[0] == first
      requires DeltaScales(br.data, br.size, start, deltaBits, 1) == Values([first], br.bit)
      modifies br`bit, scaleFactors
      ensures Valid()
      ensures var n := if csCount == 0 then 1 else csCount;
        var u := DeltaScales(br.data, br.size, start, deltaBits, n);
        status == (if u.Values? then Done else if u.Invalid? then Rejected else Panicked)
        && (status.Done? ==> scaleFactors[..] == u.vs + old(scaleFactors[..])[n..] && br.bit == u.end)
        && (status.Rejected? ==> scaleFactors[..] == u.vs + old(scaleFactors[..])[|u.vs|..])
    {
      hide Pow2, FieldAt, NextScale;
      var expectedDelta := MaxDelta(deltaBits);
      var value := first;
      var i := 1;
      ghost var before := scaleFactors[..];
      ghost var u := DeltaScales(br.data, br.size, start, deltaBits, 1);
      assert scaleFactors[..] == [first] + before[1..];
      while i < csCount
        modifies br`bit, scaleFactors
        invariant 1 <= i && (i <= csCount || i == 1) && value < 64 && forall k :: 0 <= k < 128 ==> scaleFactors[k] < 64
        invariant u == DeltaScales(br.data, br.size, start, deltaBits, i)
        invariant u.Values? && br.bit == u.end && value == u.vs[i - 1]
        invariant scaleFactors[..] == u.vs + before[i..]
      {
        ghost var vs := u.vs;
        status, value := NextScaleFactor(br, deltaBits, expectedDelta, value);
        u := DeltaScales(br.data, br.size, start, deltaBits, i + 1);
        if !status.Done? {
          DeltaStays(br.data, br.size, start, deltaBits, i + 1, csCount);
          return;
        }
        scaleFactors[i] := value;
        OneWritten(vs, before, i, value);
        i := i + 1;
      }
      status := Done;
    }

    /** One step of the difference code, in the decoder's byte arithmetic. */
    method NextScaleFactor(br: ClData, deltaBits: nat, expectedDelta: nat, value: nat)
      returns (status: Status, next: nat)
      requires br.Valid() && value < 64 && 0 < deltaBits < 6 && expectedDelta == MaxDelta(deltaBits)
      modifies br`bit
      ensures next < 64
      ensures var u := NextScale(br.data, br.size, old(br.bit), deltaBits, value);
        status == (if u.Values? then Done else if u.Invalid? then Rejected else Panicked)
        && (status.Done? ==> u.vs == [next] && br.bit == u.end)
    {
      DeltasSmall(deltaBits);
      var half := Half(deltaBits);
      hide Pow2, MaxDelta, Half, FieldAt, WrappedScale;
      next := value;
      var d := ReadField(br, deltaBits);
      if d.NoField? {
        return Panicked, value;
      }
      var delta := d.v;
      if delta == expectedDelta {
        var f := ReadField(br, 6);
        if f.NoField? {
          return Panicked, value;
        }
        next := f.v;
      } else {
        var test := value + delta - half;
        if test < 0 || test >= 64 {
          return Rejected, value;
        }
        WrappedScaleAgrees(value, delta, half);
        next := WrappedScale(value, delta, half);
      }
      status := Done;
    }
  }

  lemma {:induction false} FixedStaysStopped(data: seq<byte>, size: nat, bit: nat, width: nat, k: nat, n: nat)
    requires size <= 8 * |data| && k <= n && FixedFields(data, size, bit, width, k).Stopped?
    ensures FixedFields(data, size, bit, width, n).Stopped?
    decreases n
  {
    hide FieldAt;
    if k < n {
      FixedStaysStopped(data, size, bit, width, k, n - 1);
    }
  }

  lemma {:induction false} LevelsStay(data: seq<byte>, size: nat, bit: nat, deltaBits: nat, first: nat, k: nat, n: nat)
    requires size <= 8 * |data| && first < 16 && 0 < k <= n
    requires var l := DeltaLevels(data, size, bit, deltaBits, first, k); l.Broken? || !l.ok
    ensures DeltaLevels(data, size, bit, deltaBits, first, n) == DeltaLevels(data, size, bit, deltaBits, first, k)
    decreases n
  {
    hide NextLevel;
    if k < n {
      LevelsStay(data, size, bit, deltaBits, first, k, n - 1);
    }
  }

  lemma {:induction false} DeltaStays(data: seq<byte>, size: nat, bit: nat, deltaBits: nat, k: nat, n: nat)
    requires size <= 8 * |data| && 0 < k <= n && !DeltaScales(data, size, bit, deltaBits, k).Values?
    ensures DeltaScales(data, size, bit, deltaBits, n) == DeltaScales(data, size, bit, deltaBits, k)
    decreases n
  {
    hide NextScale;
    if k < n {
      DeltaStays(data, size, bit, deltaBits, k, n - 1);
    }
  }
}

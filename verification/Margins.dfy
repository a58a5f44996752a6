/**
  When a frame that passes the checks breaks off: only near its end, so never in a frame that
  is long enough, whatever its bytes are; and a short frame that does.
 */
module Margins {
  import opened BitReader
  import opened Bytes
  import opened Channel
  import opened Common
  import opened Frame
  import opened Streams
  import Cipher
  import Coefficients
  import Crc
  import Header
  import Resolution

  // ---------- side information ----------

  /** With three bytes left a field is there. */
  lemma EarlyField(data: seq<byte>, size: nat, bit: nat, n: nat)
    requires size <= 8 * |data| && bit + 24 <= size && n <= 9
    ensures FieldAt(data, size, bit, n).Field?
  {
    ShortPeek(data, size, bit, n);
    hide Peek, Value;
  }

  lemma {:induction false} EarlyFields(data: seq<byte>, size: nat, bit: nat, width: nat, n: nat)
    requires size <= 8 * |data| && width <= 6 && bit + 6 * n + 24 <= size
    ensures var u := FixedFields(data, size, bit, width, n); u.Values? && bit <= u.end <= bit + 6 * n
  {
    hide FieldAt;
    if n > 0 {
      EarlyFields(data, size, bit, width, n - 1);
      EarlyField(data, size, FixedFields(data, size, bit, width, n - 1).end, width);
    }
  }

  lemma EarlyScale(data: seq<byte>, size: nat, bit: nat, deltaBits: nat, value: nat)
    requires size <= 8 * |data| && deltaBits < 6 && bit + 35 <= size
    ensures var u := NextScale(data, size, bit, deltaBits, value);
      !u.Stopped? && (u.Values? ==> |u.vs| == 1 && bit <= u.end <= bit + 11)
  {
    EarlyField(data, size, bit, deltaBits);
    EarlyField(data, size, bit + deltaBits, 6);
    hide Peek, MaxDelta, Half, Pow2;
  }

  lemma {:induction false} EarlyScales(data: seq<byte>, size: nat, bit: nat, deltaBits: nat, n: nat)
    requires size <= 8 * |data| && deltaBits < 6 && 0 < n && bit + 11 * n + 24 <= size
    ensures var u := DeltaScales(data, size, bit, deltaBits, n);
      !u.Stopped? && (u.Values? ==> bit <= u.end <= bit + 11 * n)
  {
    hide NextScale, Pow2, Peek;
    if n == 1 {
      EarlyField(data, size, bit, 6);
    } else {
      EarlyScales(data, size, bit, deltaBits, n - 1);
      var before := DeltaScales(data, size, bit, deltaBits, n - 1);
      if before.Values? {
        EarlyScale(data, size, before.end, deltaBits, before.vs[n - 2]);
      }
    }
  }

  lemma EarlyCoded(data: seq<byte>, size: nat, bit: nat, deltaBits: nat, before: seq<nat>, csCount: nat)
    requires size <= 8 * |data| && |before| == 128 && csCount <= 128 && bit + 1408 + 24 <= size
    ensures var u := CodedScales(data, size, bit, deltaBits, before, csCount);
      !u.Stopped? && (u.Values? ==> bit <= u.end <= bit + 1408)
  {
    if deltaBits >= 6 {
      EarlyFields(data, size, bit, 6, csCount);
    } else if deltaBits > 0 {
      EarlyScales(data, size, bit, deltaBits, if csCount == 0 then 1 else csCount);
    }
    hide FixedFields, DeltaScales;
  }

  lemma EarlyScaleFactors(data: seq<byte>, size: nat, bit: nat, t: ChannelType, codedCount: nat, before: seq<nat>,
                          groups: nat, version: nat)
    requires size <= 8 * |data| && |before| == 128 && codedCount <= 128 && bit + 1411 + 24 <= size
    requires var extra := ExtraCount(t, groups, version); extra == 0 || codedCount + extra < 128
    ensures var s := ScalesAfter(data, size, bit, t, codedCount, before, groups, version);
      !s.ScalesPanicked? && (s.ScalesRead? ==> bit <= s.end <= bit + 1411)
  {
    var extra := ExtraCount(t, groups, version);
    assert (codedCount + extra) % WORD == codedCount + extra;
    EarlyField(data, size, bit, 3);
    var width := FieldAt(data, size, bit, 3);
    EarlyCoded(data, size, width.end, width.v, before, codedCount + extra);
    hide FieldAt, CodedScales, Derived;
  }

  lemma EarlyLevel(data: seq<byte>, size: nat, bit: nat, deltaBits: nat, value: nat)
    requires size <= 8 * |data| && deltaBits < 3 && value < 16 && bit + 31 <= size
    ensures var l := NextLevel(data, size, bit, deltaBits, value); l.Levels? && bit <= l.end <= bit + 7
  {
    EarlyField(data, size, bit, deltaBits + 1);
    EarlyField(data, size, bit + deltaBits + 1, 4);
    hide Peek, MaxDelta, Half, Pow2;
  }

  lemma {:induction false} EarlyDeltas(data: seq<byte>, size: nat, bit: nat, deltaBits: nat, first: nat, n: nat)
    requires size <= 8 * |data| && deltaBits < 3 && first < 16 && 0 < n && bit + 7 * n + 24 <= size
    ensures var l := DeltaLevels(data, size, bit, deltaBits, first, n); l.Levels? && bit <= l.end <= bit + 7 * n
  {
    hide NextLevel;
    if n > 1 {
      EarlyDeltas(data, size, bit, deltaBits, first, n - 1);
      var before := DeltaLevels(data, size, bit, deltaBits, first, n - 1);
      if before.ok {
        EarlyLevel(data, size, before.end, deltaBits, before.vs[n - 2]);
      }
    }
  }

  lemma EarlyCodedLevels(data: seq<byte>, size: nat, bit: nat, before: seq<nat>, first: nat)
    requires size <= 8 * |data| && |before| == 8 && first < 16 && bit + 58 + 24 <= size
    ensures var l := CodedLevels(data, size, bit, before, first); l.Levels? && bit <= l.end <= bit + 58
  {
    EarlyField(data, size, bit, 2);
    var width := FieldAt(data, size, bit, 2);
    assert Pow2(2) == 4;
    if width.v == 3 {
      EarlyFields(data, size, width.end, 4, 7);
    } else {
      EarlyDeltas(data, size, width.end, width.v, first, 8);
    }
    hide FieldAt, FixedFields, DeltaLevels;
  }

  lemma EarlyLevels(data: seq<byte>, size: nat, bit: nat, before: seq<nat>, version: nat)
    requires size <= 8 * |data| && |before| == 8 && bit + 62 + 24 <= size
    ensures var l := UnpackedLevels(data, size, bit, before, version); l.Levels? && bit <= l.end <= bit + 62
  {
    hide Peek, Value, FixedFields, CodedLevels, Pow2;
    ShortPeek(data, size, bit, 4);
    var first := Peek(data, size, bit, 4);
    if version <= HCA_VERSION_200 {
      EarlyFields(data, size, bit + 4, 4, 7);
    } else if first.v < 15 {
      EarlyCodedLevels(data, size, bit + 4, before, first.v);
    }
  }

  lemma EarlyIntensities(data: seq<byte>, size: nat, bit: nat, t: ChannelType, sf: seq<nat>, intensity: seq<nat>, groups: nat,
                         version: nat)
    requires size <= 8 * |data| && |sf| == 128 && |intensity| == 8 && bit + 768 + 24 <= size
    requires version <= HCA_VERSION_200 ==> groups <= 128
    ensures var l := IntensitiesAfter(data, size, bit, t, sf, intensity, groups, version);
      l.IntensitiesRead? && bit <= l.end <= bit + 768
  {
    if t.StereoSecondary? {
      EarlyLevels(data, size, bit, intensity, version);
    } else if version <= HCA_VERSION_200 {
      EarlyFields(data, size, bit, 6, groups);
    }
    hide UnpackedLevels, FixedFields;
  }

  /** The side information of one channel takes at most this many bits. */
  const SIDE_BITS: nat := 2179

  lemma EarlySide(data: seq<byte>, size: nat, bit: nat, t: ChannelType, codedCount: nat, sf: seq<nat>, intensity: seq<nat>,
                  groups: nat, version: nat)
    requires size <= 8 * |data| && |sf| == 128 && |intensity| == 8 && codedCount <= 128 && bit + SIDE_BITS + 24 <= size
    requires version <= HCA_VERSION_200 ==> groups <= 128
    requires var extra := ExtraCount(t, groups, version); extra == 0 || codedCount + extra < 128
    ensures var s := SideAfter(data, size, bit, t, codedCount, sf, intensity, groups, version);
      !s.SidePanicked? && (s.SideRead? ==> bit <= s.end <= bit + SIDE_BITS)
  {
    EarlyScaleFactors(data, size, bit, t, codedCount, sf, groups, version);
    var s := ScalesAfter(data, size, bit, t, codedCount, sf, groups, version);
    if s.ScalesRead? {
      EarlyIntensities(data, size, s.end, t, s.vs, intensity, groups, version);
    }
    hide ScalesAfter, IntensitiesAfter, ExtraCount;
  }

  lemma EarlyChannel(h: Header.Params, d: seq<byte>, bit: nat, sides: seq<SideState>, i: nat)
    requires h.Accepted() && !Unusable(h) && SidesShape(h, sides) && i < h.channels && h.frameSize <= |d|
    requires bit + SIDE_BITS + 24 <= 8 * h.frameSize
    ensures var c := OneMore(h, d, bit, sides, i); !c.ChainPanicked? && (c.Chain? ==> bit <= c.end <= bit + SIDE_BITS)
  {
    UsableChannel(h, i);
    var t := Header.TypeOf(h, i);
    EarlySide(d, 8 * h.frameSize, bit, t, Header.CodedCount(h, t), sides[i].scaleFactors, sides[i].intensity,
              h.HfrGroupCount(), h.version);
    hide Unusable, SideAfter, Header.TypeOf, Header.CodedCount, Header.Params.HfrGroupCount;
  }

  /** Side information panics only in the last bits of a frame. */
  lemma {:induction false} SidesBreakLate(h: Header.Params, d: seq<byte>, sides: seq<SideState>, k: nat) returns (i: nat)
    requires h.Accepted() && !Unusable(h) && SidesShape(h, sides) && k <= h.channels && h.frameSize <= |d|
    requires SidesAfter(h, d, 32, sides, k).ChainPanicked?
    ensures i < k && SidesAfter(h, d, 32, sides, i).Chain?
    ensures SidesAfter(h, d, 32, sides, i).end + SIDE_BITS + 24 > 8 * h.frameSize
  {
    hide Unusable, OneMore;
    var before := SidesAfter(h, d, 32, sides, k - 1);
    if before.ChainPanicked? {
      i := SidesBreakLate(h, d, sides, k - 1);
    } else {
      i := k - 1;
      if before.end + SIDE_BITS + 24 <= 8 * h.frameSize {
        EarlyChannel(h, d, before.end, before.sides, k - 1);
      }
    }
  }

  // ---------- coefficients ----------

  /** A run of coefficients breaks only at a coefficient with less than three bytes left. */
  lemma {:induction false} RunBreaksLate(d: seq<byte>, size: nat, bit: nat, rs: seq<nat>, k: nat) returns (j: nat)
    requires size <= 8 * |d| && Coefficients.Resolutions(rs) && k <= |rs|
    requires Coefficients.DecodeRun(d, size, bit, rs, k).RunBroken?
    ensures j < k && Coefficients.DecodeRun(d, size, bit, rs, j).Coefficients?
    ensures Coefficients.DecodeRun(d, size, bit, rs, j).end + 24 > size
  {
    hide Coefficients.DecodeOne;
    var before := Coefficients.DecodeRun(d, size, bit, rs, k - 1);
    if before.RunBroken? {
      j := RunBreaksLate(d, size, bit, rs, k - 1);
    } else {
      j := k - 1;
      if before.end + 24 <= size {
        Coefficients.DecodeOneIsReference(d, size, before.end, rs[k - 1]);
      }
    }
  }

  lemma {:induction false} EarlyRun(d: seq<byte>, size: nat, bit: nat, rs: seq<nat>, k: nat)
    requires size <= 8 * |d| && Coefficients.Resolutions(rs) && k <= |rs| && bit + 12 * k + 24 <= size
    ensures var run := Coefficients.DecodeRun(d, size, bit, rs, k); run.Coefficients? && run.end <= bit + 12 * k
  {
    hide Coefficients.DecodeOne;
    if k > 0 {
      EarlyRun(d, size, bit, rs, k - 1);
      Coefficients.DecodeOneIsReference(d, size, Coefficients.DecodeRun(d, size, bit, rs, k - 1).end, rs[k - 1]);
    }
  }

  /** Coefficient j of channel i in a subframe starts with less than three bytes left. */
  predicate LateCoefficient(h: Header.Params, ath: seq<nat>, rule: Resolution.Rule, sides: seq<SideState>, d: seq<byte>,
                            bit: nat, subframe: nat, i: nat, j: nat)
    requires h.Accepted() && SidesShape(h, sides) && h.frameSize <= |d| && rule.WellFormed() && |ath| == 128
  {
    i < h.channels && j < Header.CodedCount(h, Header.TypeOf(h, i))
    && var n := Header.CodedCount(h, Header.TypeOf(h, i));
       var at := RunsEnd(h, ath, rule, sides, d, bit, subframe, i);
       at.Some?
       && var run := Coefficients.DecodeRun(d, 8 * h.frameSize, at.value,
                                            Resolution.Resolutions(rule, sides[i].scaleFactors, ath, n), j);
          run.Coefficients? && run.end + 24 > 8 * h.frameSize
  }

  lemma {:induction false} RunsBreakLate(h: Header.Params, ath: seq<nat>, rule: Resolution.Rule, sides: seq<SideState>,
                                         d: seq<byte>, bit: nat, subframe: nat, i: nat)
    returns (s: nat, k: nat, j: nat)
    requires h.Accepted() && SidesShape(h, sides) && i <= h.channels && h.frameSize <= |d| && rule.WellFormed() && |ath| == 128
    requires RunsEnd(h, ath, rule, sides, d, bit, subframe, i).None?
    ensures LateCoefficient(h, ath, rule, sides, d, bit, s, k, j)
    ensures s < subframe || (s == subframe && k < i)
    decreases subframe, i
  {
    hide Coefficients.DecodeRun, Resolution.Resolutions, Header.TypeOf, Header.CodedCount;
    if i == 0 {
      s, k, j := RunsBreakLate(h, ath, rule, sides, d, bit, subframe - 1, h.channels);
    } else {
      var at := RunsEnd(h, ath, rule, sides, d, bit, subframe, i - 1);
      if at.None? {
        s, k, j := RunsBreakLate(h, ath, rule, sides, d, bit, subframe, i - 1);
      } else {
        var n := Header.CodedCount(h, Header.TypeOf(h, i - 1));
        s, k := subframe, i - 1;
        j := RunBreaksLate(d, 8 * h.frameSize, at.value, Resolution.Resolutions(rule, sides[i - 1].scaleFactors, ath, n), n);
      }
    }
  }

  // ---------- whole frames ----------

  lemma RuleThere(h: Header.Params, d: seq<byte>)
    requires h.Accepted() && h.frameSize <= |d|
    ensures RuleOf(h, d).Some? && RuleOf(h, d).value.WellFormed()
  {
    EarlyField(d, 8 * h.frameSize, 16, 9);
    EarlyField(d, 8 * h.frameSize, 25, 7);
    RuleFits(h, d);
    hide FieldAt;
  }

  lemma SyncThere(h: Header.Params, data: seq<byte>)
    requires h.Accepted() && h.frameSize <= |data|
    ensures FieldAt(data, 8 * h.frameSize, 0, 16).Field?
  {
    AlignedPeek(data, 8 * h.frameSize, 0, 16);
    hide Peek, Value;
  }

  /** A read before the last bits of the side information, or before the last three bytes of the coefficients, is safe. */
  ghost predicate ReadsLate(h: Header.Params, ath: seq<nat>, d: seq<byte>, sides: seq<SideState>)
    requires h.Accepted() && SidesShape(h, sides) && |ath| == 128 && h.frameSize <= |d|
  {
    (exists i :: 0 <= i < h.channels && SidesAfter(h, d, 32, sides, i).Chain?
                 && SidesAfter(h, d, 32, sides, i).end + SIDE_BITS + 24 > 8 * h.frameSize)
    || (RuleThere(h, d);
        var c := SidesAfter(h, d, 32, sides, h.channels);
        c.Chain? && exists s: nat, i: nat, j: nat ::
          s < SUBFRAMES && LateCoefficient(h, ath, RuleOf(h, d).value, c.sides, d, c.end, s, i, j))
  }

  /**
    Under a header that is not unusable, a frame breaks off only where the side information of a
    channel starts in the last 2203 bits, or a coefficient in the last three bytes.
   */
  lemma BreaksOffLate(h: Header.Params, ath: seq<nat>, table: seq<byte>, data: seq<byte>, sides: seq<SideState>)
    requires h.Accepted() && !Unusable(h) && SidesShape(h, sides) && |ath| == 128 && |table| == 256
    requires OutcomeOf(h, ath, table, data, sides).BrokenOff?
    ensures h.frameSize <= |data| && ReadsLate(h, ath, Decrypted(table, data, h.frameSize), sides)
  {
    hide Unusable, FieldAt, Crc.BitCrc, Crc.BitsOf, AsBits, Decrypted, SidesAfter, RunsEnd, LateCoefficient, RuleOf;
    SyncThere(h, data);
    var d := Decrypted(table, data, h.frameSize);
    RuleThere(h, d);
    var c := SidesAfter(h, d, 32, sides, h.channels);
    if c.ChainPanicked? {
      var i := SidesBreakLate(h, d, sides, h.channels);
    } else {
      var s, i, j := RunsBreakLate(h, ath, RuleOf(h, d).value, c.sides, d, c.end, SUBFRAMES, 0);
    }
  }

  // ---------- frames that are long enough ----------

  /** Bits of 128 coefficients at most. */
  const RUN_BITS: nat := 1536

  function RunBudget(h: Header.Params, subframe: nat, i: nat): nat
    decreases subframe, i
  {
    if i > 0 then RunBudget(h, subframe, i - 1) + RUN_BITS
    else if subframe > 0 then RunBudget(h, subframe - 1, h.channels) else 0
  }

  lemma {:induction false} RunBudgetIs(h: Header.Params, subframe: nat, i: nat)
    ensures RunBudget(h, subframe, i) == RUN_BITS * (subframe * h.channels + i)
    decreases subframe, i
  {
    if i > 0 {
      RunBudgetIs(h, subframe, i - 1);
    } else if subframe > 0 {
      RunBudgetIs(h, subframe - 1, h.channels);
      assert subframe * h.channels == (subframe - 1) * h.channels + h.channels;
    }
  }

  /** Room for the longest side information and the longest coefficients of every channel. */
  predicate Spacious(h: Header.Params)
  {
    32 + (SIDE_BITS + SUBFRAMES * RUN_BITS) * h.channels + 24 <= 8 * h.frameSize
  }

  lemma {:induction false} EarlySides(h: Header.Params, d: seq<byte>, sides: seq<SideState>, k: nat)
    requires h.Accepted() && !Unusable(h) && SidesShape(h, sides) && k <= h.channels && h.frameSize <= |d| && Spacious(h)
    ensures var c := SidesAfter(h, d, 32, sides, k);
      !c.ChainPanicked? && (c.Chain? ==> c.end <= 32 + SIDE_BITS * k)
  {
    hide Unusable, OneMore;
    if k > 0 {
      EarlySides(h, d, sides, k - 1);
      var c := SidesAfter(h, d, 32, sides, k - 1);
      if c.Chain? {
        EarlyChannel(h, d, c.end, c.sides, k - 1);
      }
    }
  }

  lemma {:induction false} EarlyRuns(h: Header.Params, ath: seq<nat>, rule: Resolution.Rule, sides: seq<SideState>,
                                     d: seq<byte>, bit: nat, subframe: nat, i: nat)
    requires h.Accepted() && SidesShape(h, sides) && i <= h.channels && h.frameSize <= |d| && rule.WellFormed() && |ath| == 128
    requires bit + RunBudget(h, subframe, i) + 24 <= 8 * h.frameSize
    ensures var at := RunsEnd(h, ath, rule, sides, d, bit, subframe, i);
      at.Some? && at.value <= bit + RunBudget(h, subframe, i)
    decreases subframe, i
  {
    hide Coefficients.DecodeRun, Resolution.Resolutions, Header.TypeOf, Header.CodedCount;
    if i > 0 {
      EarlyRuns(h, ath, rule, sides, d, bit, subframe, i - 1);
      var at := RunsEnd(h, ath, rule, sides, d, bit, subframe, i - 1);
      var n := Header.CodedCount(h, Header.TypeOf(h, i - 1));
      EarlyRun(d, 8 * h.frameSize, at.value, Resolution.Resolutions(rule, sides[i - 1].scaleFactors, ath, n), n);
    } else if subframe > 0 {
      EarlyRuns(h, ath, rule, sides, d, bit, subframe - 1, h.channels);
    }
  }

  /** A frame of a long enough size never breaks off, whatever its bytes are and whatever came before. */
  lemma SpaciousFrames(h: Header.Params, ath: seq<nat>, table: seq<byte>, data: seq<byte>, sides: seq<SideState>)
    requires h.Accepted() && !Unusable(h) && Spacious(h) && SidesShape(h, sides) && |ath| == 128 && |table| == 256
    ensures !OutcomeOf(h, ath, table, data, sides).BrokenOff?
  {
    hide Unusable, FieldAt, Crc.BitCrc, Crc.BitsOf, AsBits, Decrypted, SidesAfter, RunsEnd, RuleOf;
    if h.frameSize <= |data| {
      SyncThere(h, data);
      var d := Decrypted(table, data, h.frameSize);
      RuleThere(h, d);
      EarlySides(h, d, sides, h.channels);
      var c := SidesAfter(h, d, 32, sides, h.channels);
      if c.Chain? {
        RunBudgetIs(h, SUBFRAMES, 0);
        EarlyRuns(h, ath, RuleOf(h, d).value, c.sides, d, c.end, SUBFRAMES, 0);
      }
    }
  }

  /** So no run of such frames does, when the high bands have a source as well. */
  lemma {:induction false} SpaciousRuns(h: Header.Params, ath: seq<nat>, table: seq<byte>, frames: seq<seq<byte>>,
                                        sides: seq<SideState>)
    requires h.Accepted() && !Unusable(h) && !BadLayout(h) && Spacious(h)
    requires SidesShape(h, sides) && |ath| == 128 && |table| == 256
    ensures BrokenOff !in Outcomes(h, ath, table, frames, sides) && |Outcomes(h, ath, table, frames, sides)| == |frames|
  {
    hide OutcomeOf, NextSides, BadLayout, Unusable;
    if frames != [] {
      SpaciousFrames(h, ath, table, frames[0], sides);
      SpaciousRuns(h, ath, table, frames[1..], NextSides(h, ath, table, frames[0], sides));
    }
  }

  // ---------- a frame that breaks off ----------

  function ShortHeader(): Header.Params { Header.Params(0x0200, 1, 8, 1, 15, 1, 0, 4, 4, 0, 0, 0) }

  /** Sync word, no noise, and a code width of six bits for four scale factors, of which the fourth crosses the last byte. */
  function ShortBody(b: byte): seq<byte> { [255, 255, 0, 0, b, 0] }

  lemma ThreeFields(d: seq<byte>)
    requires |d| >= 8
    ensures FixedFields(d, 64, 35, 6, 4).Stopped?
  {
    assert !WindowFits(64, 53, 6);
    PeekExact(d, 64, 53, 6);
    hide FieldAt;
    var three := FixedFields(d, 64, 35, 6, 3);
    assert three.Values? ==> three.end == 53 by {
      FieldsEnd(d, 64, 35, 6, 3);
    }
    assert FieldAt(d, 64, 53, 6).NoField? by {
      hide *;
      PanickedField(d, 64, 53, 6);
    }
  }

  lemma PanickedField(d: seq<byte>, size: nat, bit: nat, n: nat)
    requires size <= 8 * |d| && Peek(d, size, bit, n).Panic?
    ensures FieldAt(d, size, bit, n).NoField?
  {
  }

  lemma {:induction false} FieldsEnd(d: seq<byte>, size: nat, bit: nat, width: nat, n: nat)
    requires size <= 8 * |d|
    ensures var u := FixedFields(d, size, bit, width, n); u.Values? ==> u.end == bit + width * n
  {
    hide FieldAt;
    if n > 0 {
      FieldsEnd(d, size, bit, width, n - 1);
      assert width * n == width * (n - 1) + width;
    }
  }

  /** Six-bit scale factors on a frame of eight bytes: the fourth is not read. */
  lemma ShortSide(d: seq<byte>, before: seq<nat>, intensity: seq<nat>)
    requires |d| == 8 && d[4] == 0xC0 && |before| == 128 && |intensity| == 8
    ensures SideAfter(d, 64, 32, Discrete, 4, before, intensity, 0, 0x0200).SidePanicked?
  {
    assert Window(d, 4, 0) == 0 && Window(d, 4, 1) == 0xC0;
    assert Pow2(5) == 32 && Pow2(8) == 256;
    assert FieldAt(d, 64, 32, 3) == Field(6, 35) by {
      hide Pow2;
    }
    ThreeFields(d);
    hide FieldAt, FixedFields;
  }

  /** A frame with a right checksum under an accepted, usable header, on which the bit reader panics. */
  lemma FrameBreaksOff(ath: seq<nat>, table: seq<byte>, b: byte, sides: seq<SideState>)
    requires |ath| == 128 && Cipher.IsSubstitution(table) && table[b] == 0xC0 && SidesShape(ShortHeader(), sides)
    ensures var h := ShortHeader();
      h.Accepted() && !Unusable(h) && !BadLayout(h)
      && OutcomeOf(h, ath, table, WithChecksum(ShortBody(b)), sides).BrokenOff?
    ensures Crc.BitCrc(Crc.BitsOf(AsBits(WithChecksum(ShortBody(b))))) == 0
  {
    var h, f := ShortHeader(), WithChecksum(ShortBody(b));
    assert f[..8] == f;
    ChecksumRight(ShortBody(b));
    var d := Decrypted(table, f, 8);
    assert d[4] == table[f[4]] == 0xC0;
    RuleThere(h, d);
    FirstNotSecondary(h);
    assert Header.TypeOf(h, 0) == Discrete && h.HfrGroupCount() == 0;
    ShortSide(d, sides[0].scaleFactors, sides[0].intensity);
    assert SidesAfter(h, d, 32, sides, 0) == Chain(sides, 32);
    assert SidesAfter(h, d, 32, sides, 1).ChainPanicked? by {
      hide SideAfter;
    }
    hide FieldAt, Crc.BitCrc, Crc.BitsOf, AsBits, Decrypted, SidesAfter, RunsEnd, RuleOf, WithChecksum;
    SyncReads(f, 8);
  }
}

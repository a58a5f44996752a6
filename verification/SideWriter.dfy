/**
  Writing side information: scale factors and intensities as differences with an escape code, as
  fixed fields, or not at all. Whatever is written is read back, and exactly its bits are consumed.
 */
module SideWriter {
  import opened BitReader
  import opened Bytes
  import opened Channel
  import opened Coefficients
  import opened Common

  /** The bits at a position, with 24 more behind them as short reads need. */
  predicate Ahead(data: seq<byte>, size: nat, pos: nat, bits: seq<bool>)
  {
    HoldsBits(data, pos, bits) && pos + |bits| + 24 <= size
  }

  lemma AheadParts(data: seq<byte>, size: nat, pos: nat, a: seq<bool>, b: seq<bool>)
    requires Ahead(data, size, pos, a + b)
    ensures Ahead(data, size, pos, a) && Ahead(data, size, pos + |a|, b) && |a + b| == |a| + |b|
  {
    BitParts(data, pos, a, b);
    hide HoldsBits;
  }

  // ---------- single fields ----------

  lemma FieldHeld(data: seq<byte>, size: nat, pos: nat, n: nat, v: nat)
    requires size <= 8 * |data| && n <= 9 && v < Pow2(n) && Ahead(data, size, pos, BitsOfNumber(n, v))
    ensures FieldAt(data, size, pos, n) == Field(v, pos + n)
  {
    ShortPeek(data, size, pos, n);
    HeldValue(data, pos, BitsOfNumber(n, v));
    NumberOfBits(n, v);
    hide Peek, Value, HoldsBits, BitsOfNumber, Pow2;
  }

  lemma Powers()
    ensures Pow2(1) == 2 && Pow2(2) == 4 && Pow2(3) == 8 && Pow2(4) == 16 && Pow2(5) == 32 && Pow2(6) == 64 && Pow2(0) == 1
  {
  }

  // ---------- fields of one width ----------

  /** Values below 2^width, each in width bits. */
  function FixedWords(width: nat, vs: seq<nat>): seq<bool>
  {
    if vs == [] then [] else FixedWords(width, vs[..|vs| - 1]) + BitsOfNumber(width, vs[|vs| - 1])
  }

  lemma {:induction false} FixedRead(data: seq<byte>, size: nat, pos: nat, width: nat, vs: seq<nat>)
    requires size <= 8 * |data| && width <= 6 && Below(vs, Pow2(width)) && Ahead(data, size, pos, FixedWords(width, vs))
    ensures FixedFields(data, size, pos, width, |vs|) == Values(vs, pos + |FixedWords(width, vs)|)
    decreases |vs|
  {
    hide *;
    FixedWordsParts(width, vs);
    if vs == [] {
      NoFields(data, size, pos, width);
    } else {
      var n := |vs| - 1;
      BelowAt(vs, n, Pow2(width));
      var before := FixedWords(width, vs[..n]);
      AheadParts(data, size, pos, before, BitsOfNumber(width, vs[n]));
      FixedRead(data, size, pos, width, vs[..n]);
      FieldHeld(data, size, pos + |before|, width, vs[n]);
      FixedFieldsNext(data, size, pos, width, n + 1);
      assert vs[..n] + [vs[n]] == vs;
    }
  }

  lemma FixedWordsParts(width: nat, vs: seq<nat>)
    ensures FixedWords(width, vs)
         == if vs == [] then [] else FixedWords(width, vs[..|vs| - 1]) + BitsOfNumber(width, vs[|vs| - 1])
  {
    hide BitsOfNumber;
  }

  lemma NoFields(data: seq<byte>, size: nat, pos: nat, width: nat)
    requires size <= 8 * |data|
    ensures FixedFields(data, size, pos, width, 0) == Values([], pos)
  {
  }

  // ---------- scale factors as differences ----------

  /** The difference from the value before, around the middle code, or the highest code and the value itself. */
  function ScaleWord(w: nat, before: nat, v: nat): seq<bool>
    requires 0 < w < 6
  {
    var code := v - before + Pow2(w - 1) - 1;
    if 0 <= code < Pow2(w) - 1 then BitsOfNumber(w, code) else BitsOfNumber(w, Pow2(w) - 1) + BitsOfNumber(6, v)
  }

  lemma ScaleWordParts(w: nat, before: nat, v: nat)
    requires 0 < w < 6
    ensures var code := v - before + Pow2(w - 1) - 1;
      ScaleWord(w, before, v)
      == if 0 <= code < Pow2(w) - 1 then BitsOfNumber(w, code) else BitsOfNumber(w, Pow2(w) - 1) + BitsOfNumber(6, v)
  {
    hide BitsOfNumber, Pow2;
  }

  lemma ScaleWordRead(data: seq<byte>, size: nat, pos: nat, w: nat, before: nat, v: nat)
    requires size <= 8 * |data| && 0 < w < 6 && before < 64 && v < 64
    requires Ahead(data, size, pos, ScaleWord(w, before, v))
    ensures NextScale(data, size, pos, w, before) == Values([v], pos + |ScaleWord(w, before, v)|)
  {
    hide *;
    CodeFacts(w);
    Powers();
    ScaleWordParts(w, before, v);
    var code := v - before + Pow2(w - 1) - 1;
    if 0 <= code < Pow2(w) - 1 {
      FieldHeld(data, size, pos, w, code);
      NextScaleDifference(data, size, pos, w, before, code);
    } else {
      AheadParts(data, size, pos, BitsOfNumber(w, Pow2(w) - 1), BitsOfNumber(6, v));
      FieldHeld(data, size, pos, w, Pow2(w) - 1);
      FieldHeld(data, size, pos + w, 6, v);
      NextScaleEscape(data, size, pos, w, before, v);
    }
  }

  lemma CodeFacts(w: nat)
    requires 0 < w
    ensures Pow2(w) == 2 * Pow2(w - 1) && MaxDelta(w) == Pow2(w) - 1 && Half(w) == Pow2(w - 1) - 1
  {
  }

  /** The first value in six bits, then one word for each. */
  function ScaleWords(w: nat, vs: seq<nat>): seq<bool>
    requires 0 < w < 6 && vs != []
  {
    var n := |vs| - 1;
    if n == 0 then BitsOfNumber(6, vs[0]) else ScaleWords(w, vs[..n]) + ScaleWord(w, vs[n - 1], vs[n])
  }

  /** The differences from a position on give these values and end there. */
  predicate ScalesGiven(data: seq<byte>, size: nat, pos: nat, w: nat, vs: seq<nat>, end: nat)
    requires size <= 8 * |data| && vs != []
  {
    DeltaScales(data, size, pos, w, |vs|) == Values(vs, end)
  }

  lemma {:induction false} ScaleWordsRead(data: seq<byte>, size: nat, pos: nat, w: nat, vs: seq<nat>)
    requires size <= 8 * |data| && 0 < w < 6 && vs != [] && Below(vs, 64)
    requires Ahead(data, size, pos, ScaleWords(w, vs))
    ensures ScalesGiven(data, size, pos, w, vs, pos + |ScaleWords(w, vs)|)
    decreases |vs|
  {
    hide *;
    var n := |vs| - 1;
    ScaleWordsParts(w, vs);
    BelowAt(vs, n, 64);
    if n == 0 {
      FirstScaleRead(data, size, pos, w, vs);
    } else {
      AheadParts(data, size, pos, ScaleWords(w, vs[..n]), ScaleWord(w, vs[n - 1], vs[n]));
      ScaleWordsRead(data, size, pos, w, vs[..n]);
      NextScaleRead(data, size, pos, pos + |ScaleWords(w, vs[..n])|, w, vs);
    }
  }

  lemma FirstScaleRead(data: seq<byte>, size: nat, pos: nat, w: nat, vs: seq<nat>)
    requires size <= 8 * |data| && |vs| == 1 && vs[0] < 64 && Ahead(data, size, pos, BitsOfNumber(6, vs[0]))
    ensures ScalesGiven(data, size, pos, w, vs, pos + 6)
  {
    Powers();
    FieldHeld(data, size, pos, 6, vs[0]);
    DeltaScalesFirst(data, size, pos, w, vs[0]);
    assert vs == [vs[0]];
    hide FieldAt, DeltaScales, Ahead, BitsOfNumber, Pow2;
  }

  lemma NextScaleRead(data: seq<byte>, size: nat, pos: nat, at: nat, w: nat, vs: seq<nat>)
    requires size <= 8 * |data| && 0 < w < 6 && |vs| > 1 && vs[|vs| - 2] < 64 && vs[|vs| - 1] < 64
    requires ScalesGiven(data, size, pos, w, vs[..|vs| - 1], at)
    requires Ahead(data, size, at, ScaleWord(w, vs[|vs| - 2], vs[|vs| - 1]))
    ensures ScalesGiven(data, size, pos, w, vs, at + |ScaleWord(w, vs[|vs| - 2], vs[|vs| - 1])|)
  {
    hide DeltaScales, NextScale, Ahead, ScaleWord;
    var n := |vs| - 1;
    ScaleWordRead(data, size, at, w, vs[n - 1], vs[n]);
    DeltaScalesNext(data, size, pos, w, n + 1);
    assert vs[..n] + [vs[n]] == vs;
  }

  lemma ScaleWordsParts(w: nat, vs: seq<nat>)
    requires 0 < w < 6 && vs != []
    ensures var n := |vs| - 1;
      ScaleWords(w, vs) == if n == 0 then BitsOfNumber(6, vs[0]) else ScaleWords(w, vs[..n]) + ScaleWord(w, vs[n - 1], vs[n])
  {
    hide ScaleWord;
  }

  lemma BelowAt(vs: seq<nat>, n: nat, bound: nat)
    requires Below(vs, bound) && n < |vs|
    ensures vs[n] < bound && (n > 0 ==> vs[n - 1] < bound) && Below(vs[..n], bound)
  {
  }

  /** Nothing for silence, differences for the first widths, and fixed fields for the last two. */
  function ScaleBody(w: nat, vs: seq<nat>): seq<bool>
    requires 0 < w < 6 ==> vs != []
  {
    if w == 0 then [] else if w < 6 then ScaleWords(w, vs) else FixedWords(6, vs)
  }

  /** The width stands in front, in three bits. */
  function ScaleFactorBits(w: nat, vs: seq<nat>): seq<bool>
    requires w < 8 && (0 < w < 6 ==> vs != [])
  {
    BitsOfNumber(3, w) + ScaleBody(w, vs)
  }

  /** As many values as are asked for; differences bring a first one even when none is. */
  predicate Fits(w: nat, vs: seq<nat>, csCount: nat)
  {
    w < 8 && csCount <= 128 && Below(vs, 64) && |vs| == if 0 < w < 6 && csCount == 0 then 1 else csCount
  }

  /** All slots: written ones first; silence clears all. */
  function Slots(w: nat, vs: seq<nat>, before: seq<nat>): (r: seq<nat>)
    requires |vs| <= |before| == 128
    ensures |r| == 128
  {
    if w == 0 then seq(128, _ => 0) else vs + before[|vs|..]
  }

  lemma ScaleBodyRead(data: seq<byte>, size: nat, pos: nat, w: nat, vs: seq<nat>, before: seq<nat>, csCount: nat)
    requires size <= 8 * |data| && |before| == 128 && Fits(w, vs, csCount)
    requires Ahead(data, size, pos, ScaleBody(w, vs))
    ensures CodedScales(data, size, pos, w, before, csCount) == Values(Slots(w, vs, before), pos + |ScaleBody(w, vs)|)
  {
    hide *;
    FitsParts(w, vs, csCount, before);
    if w == 0 {
      NoScales(data, size, pos, before, csCount);
    } else {
      if w >= 6 {
        GroupsRead(data, size, pos, vs);
      } else {
        ScaleWordsRead(data, size, pos, w, vs);
        ScalesGivenMeans(data, size, pos, w, vs, pos + |ScaleWords(w, vs)|);
      }
      CodedScalesParts(data, size, pos, w, before, csCount, vs, pos + |ScaleBody(w, vs)|);
    }
  }

  lemma ScalesGivenMeans(data: seq<byte>, size: nat, pos: nat, w: nat, vs: seq<nat>, end: nat)
    requires size <= 8 * |data| && vs != [] && ScalesGiven(data, size, pos, w, vs, end)
    ensures DeltaScales(data, size, pos, w, |vs|) == Values(vs, end)
  {
  }

  lemma NoScales(data: seq<byte>, size: nat, pos: nat, before: seq<nat>, csCount: nat)
    requires size <= 8 * |data| && |before| == 128 && csCount <= 128
    ensures CodedScales(data, size, pos, 0, before, csCount) == Values(seq(128, _ => 0), pos)
  {
  }

  lemma FitsParts(w: nat, vs: seq<nat>, csCount: nat, before: seq<nat>)
    requires Fits(w, vs, csCount) && |before| == 128
    ensures w < 8 && csCount <= 128 && Below(vs, 64) && (0 < w < 6 ==> vs != []) && |vs| <= 128
    ensures |vs| == if 0 < w < 6 && csCount == 0 then 1 else csCount
    ensures ScaleBody(w, vs) == if w == 0 then [] else if w < 6 then ScaleWords(w, vs) else FixedWords(6, vs)
    ensures Slots(w, vs, before) == if w == 0 then seq(128, _ => 0) else vs + before[|vs|..]
  {
    hide ScaleWords, FixedWords, Below;
  }

  /** Written scale factors are read back in all eight widths; slots behind them keep their contents, silence clears all. */
  lemma ScaleFactorsReadBack(data: seq<byte>, size: nat, pos: nat, w: nat, vs: seq<nat>, before: seq<nat>, csCount: nat)
    requires size <= 8 * |data| && |before| == 128 && Fits(w, vs, csCount)
    requires Ahead(data, size, pos, ScaleFactorBits(w, vs))
    ensures UnpackedScales(data, size, pos, before, csCount) == Values(Slots(w, vs, before), pos + |ScaleFactorBits(w, vs)|)
  {
    Powers();
    hide Ahead, BitsOfNumber, FieldAt, Pow2, CodedScales, ScaleBody, Slots, Below;
    AheadParts(data, size, pos, BitsOfNumber(3, w), ScaleBody(w, vs));
    FieldHeld(data, size, pos, 3, w);
    ScaleBodyRead(data, size, pos + 3, w, vs, before, csCount);
  }

  // ---------- intensities ----------

  /** The same with widths of one to three and values of four bits. */
  function LevelWord(w: nat, before: nat, v: nat): seq<bool>
    requires 0 < w < 4
  {
    var code := v - before + Pow2(w - 1) - 1;
    if 0 <= code < Pow2(w) - 1 then BitsOfNumber(w, code) else BitsOfNumber(w, Pow2(w) - 1) + BitsOfNumber(4, v)
  }

  lemma LevelWordParts(w: nat, before: nat, v: nat)
    requires 0 < w < 4
    ensures var code := v - before + Pow2(w - 1) - 1;
      LevelWord(w, before, v)
      == if 0 <= code < Pow2(w) - 1 then BitsOfNumber(w, code) else BitsOfNumber(w, Pow2(w) - 1) + BitsOfNumber(4, v)
  {
    hide BitsOfNumber, Pow2;
  }

  lemma LevelWordRead(data: seq<byte>, size: nat, pos: nat, w: nat, before: nat, v: nat)
    requires size <= 8 * |data| && 0 < w < 4 && before < 16 && v < 16
    requires Ahead(data, size, pos, LevelWord(w, before, v))
    ensures NextLevel(data, size, pos, w - 1, before) == Levels([v], pos + |LevelWord(w, before, v)|, true)
  {
    hide *;
    CodeFacts(w);
    Powers();
    LevelWordParts(w, before, v);
    var code := v - before + Pow2(w - 1) - 1;
    if 0 <= code < Pow2(w) - 1 {
      FieldHeld(data, size, pos, w, code);
      NextLevelDifference(data, size, pos, w - 1, before, code);
    } else {
      AheadParts(data, size, pos, BitsOfNumber(w, Pow2(w) - 1), BitsOfNumber(4, v));
      FieldHeld(data, size, pos, w, Pow2(w) - 1);
      FieldHeld(data, size, pos + w, 4, v);
      NextLevelEscape(data, size, pos, w - 1, before, v);
    }
  }

  /** All but the first, which stands in front of the width. */
  function LevelWords(w: nat, vs: seq<nat>): seq<bool>
    requires 0 < w < 4 && vs != []
  {
    var n := |vs| - 1;
    if n == 0 then [] else LevelWords(w, vs[..n]) + LevelWord(w, vs[n - 1], vs[n])
  }

  /** The differences from a position on give these values and end there. */
  predicate LevelsGiven(data: seq<byte>, size: nat, pos: nat, w: nat, vs: seq<nat>, end: nat)
    requires size <= 8 * |data| && 0 < w && vs != []
  {
    vs[0] < 16 && DeltaLevels(data, size, pos, w - 1, vs[0], |vs|) == Levels(vs, end, true)
  }

  lemma {:induction false} LevelWordsRead(data: seq<byte>, size: nat, pos: nat, w: nat, vs: seq<nat>)
    requires size <= 8 * |data| && 0 < w < 4 && vs != [] && Below(vs, 16)
    requires Ahead(data, size, pos, LevelWords(w, vs))
    ensures LevelsGiven(data, size, pos, w, vs, pos + |LevelWords(w, vs)|)
    decreases |vs|
  {
    hide *;
    var n := |vs| - 1;
    LevelWordsParts(w, vs);
    BelowAt(vs, n, 16);
    if n == 0 {
      FirstLevelGiven(data, size, pos, w, vs);
    } else {
      AheadParts(data, size, pos, LevelWords(w, vs[..n]), LevelWord(w, vs[n - 1], vs[n]));
      LevelWordsRead(data, size, pos, w, vs[..n]);
      NextLevelRead(data, size, pos, pos + |LevelWords(w, vs[..n])|, w, vs);
    }
  }

  lemma FirstLevelGiven(data: seq<byte>, size: nat, pos: nat, w: nat, vs: seq<nat>)
    requires size <= 8 * |data| && 0 < w && |vs| == 1 && vs[0] < 16
    ensures LevelsGiven(data, size, pos, w, vs, pos)
  {
    DeltaLevelsFirst(data, size, pos, w - 1, vs[0]);
    assert vs == [vs[0]];
    hide DeltaLevels;
  }

  lemma NextLevelRead(data: seq<byte>, size: nat, pos: nat, at: nat, w: nat, vs: seq<nat>)
    requires size <= 8 * |data| && 0 < w < 4 && |vs| > 1 && vs[|vs| - 2] < 16 && vs[|vs| - 1] < 16
    requires LevelsGiven(data, size, pos, w, vs[..|vs| - 1], at)
    requires Ahead(data, size, at, LevelWord(w, vs[|vs| - 2], vs[|vs| - 1]))
    ensures LevelsGiven(data, size, pos, w, vs, at + |LevelWord(w, vs[|vs| - 2], vs[|vs| - 1])|)
  {
    hide DeltaLevels, NextLevel, Ahead, LevelWord;
    var n := |vs| - 1;
    LevelWordRead(data, size, at, w, vs[n - 1], vs[n]);
    DeltaLevelsNext(data, size, pos, w - 1, vs[0], n + 1);
    assert vs[..n] + [vs[n]] == vs;
  }

  lemma LevelWordsParts(w: nat, vs: seq<nat>)
    requires 0 < w < 4 && vs != []
    ensures var n := |vs| - 1;
      LevelWords(w, vs) == if n == 0 then [] else LevelWords(w, vs[..n]) + LevelWord(w, vs[n - 1], vs[n])
  {
    hide LevelWord;
  }

  /** The width code, three for fixed fields, and seven intensities. */
  function CodedLevelBits(code: nat, vs: seq<nat>): seq<bool>
    requires |vs| == 8 && code < 4
  {
    BitsOfNumber(2, code) + if code == 3 then FixedWords(4, vs[1..]) else LevelWords(code + 1, vs)
  }

  /** Eight intensities of which the first is below 15: from version 3 on with a width code behind it. */
  function LevelBits(version: nat, code: nat, vs: seq<nat>): seq<bool>
    requires |vs| == 8 && code < 4
  {
    BitsOfNumber(4, vs[0]) + if version <= HCA_VERSION_200 then FixedWords(4, vs[1..]) else CodedLevelBits(code, vs)
  }

  lemma LevelBitsParts(version: nat, code: nat, vs: seq<nat>)
    requires |vs| == 8 && code < 4
    ensures LevelBits(version, code, vs)
         == BitsOfNumber(4, vs[0]) + if version <= HCA_VERSION_200 then FixedWords(4, vs[1..]) else CodedLevelBits(code, vs)
  {
    hide BitsOfNumber, FixedWords, CodedLevelBits;
  }

  lemma FixedLevelsRead(data: seq<byte>, size: nat, pos: nat, vs: seq<nat>)
    requires size <= 8 * |data| && |vs| == 8 && Below(vs, 16)
    requires Ahead(data, size, pos, FixedWords(4, vs[1..]))
    ensures FixedLevels(data, size, pos, vs[0]) == Levels(vs, pos + |FixedWords(4, vs[1..])|, true)
  {
    Powers();
    assert [vs[0]] + vs[1..] == vs;
    hide Ahead, Pow2, FixedFields, FixedWords;
    FixedRead(data, size, pos, 4, vs[1..]);
  }

  lemma CodedLevelsRead(data: seq<byte>, size: nat, pos: nat, code: nat, vs: seq<nat>, before: seq<nat>)
    requires size <= 8 * |data| && |vs| == |before| == 8 && code < 4 && Below(vs, 16)
    requires Ahead(data, size, pos, CodedLevelBits(code, vs))
    ensures CodedLevels(data, size, pos, before, vs[0]) == Levels(vs, pos + |CodedLevelBits(code, vs)|, true)
  {
    hide FixedWords, LevelWords, BitsOfNumber, Ahead, CodedLevels;
    if code == 3 {
      FixedCodeRead(data, size, pos, vs, before, FixedWords(4, vs[1..]));
    } else {
      WordCodeRead(data, size, pos, code, vs, before, LevelWords(code + 1, vs));
    }
  }

  lemma FixedCodeRead(data: seq<byte>, size: nat, pos: nat, vs: seq<nat>, before: seq<nat>, rest: seq<bool>)
    requires size <= 8 * |data| && |vs| == |before| == 8 && Below(vs, 16) && rest == FixedWords(4, vs[1..])
    requires Ahead(data, size, pos, BitsOfNumber(2, 3) + rest)
    ensures vs[0] < 16 && CodedLevels(data, size, pos, before, vs[0]) == Levels(vs, pos + 2 + |rest|, true)
  {
    hide *;
    BelowAt(vs, 0, 16);
    WidthCodeRead(data, size, pos, 3, rest, vs[0], before);
    FixedLevelsRead(data, size, pos + 2, vs);
  }

  lemma WidthCodeRead(data: seq<byte>, size: nat, pos: nat, code: nat, rest: seq<bool>, first: nat, before: seq<nat>)
    requires size <= 8 * |data| && code < 4 && Ahead(data, size, pos, BitsOfNumber(2, code) + rest) && first < 16 && |before| == 8
    ensures Ahead(data, size, pos + 2, rest)
    ensures code == 3 ==> CodedLevels(data, size, pos, before, first) == FixedLevels(data, size, pos + 2, first)
    ensures code != 3 ==>
      var l := DeltaLevels(data, size, pos + 2, code, first, 8);
      l.Levels? && |l.vs| == 8 ==> CodedLevels(data, size, pos, before, first) == l
  {
    hide *;
    Powers();
    AheadParts(data, size, pos, BitsOfNumber(2, code), rest);
    FieldHeld(data, size, pos, 2, code);
    CodedLevelsParts(data, size, pos, before, first, code);
  }

  lemma WordCodeRead(data: seq<byte>, size: nat, pos: nat, code: nat, vs: seq<nat>, before: seq<nat>, rest: seq<bool>)
    requires size <= 8 * |data| && |vs| == |before| == 8 && code < 3 && Below(vs, 16) && rest == LevelWords(code + 1, vs)
    requires Ahead(data, size, pos, BitsOfNumber(2, code) + rest)
    ensures vs[0] < 16 && CodedLevels(data, size, pos, before, vs[0]) == Levels(vs, pos + 2 + |rest|, true)
  {
    hide *;
    BelowAt(vs, 0, 16);
    WidthCodeRead(data, size, pos, code, rest, vs[0], before);
    LevelWordsRead(data, size, pos + 2, code + 1, vs);
    LevelsGivenMeans(data, size, pos + 2, code, vs, pos + 2 + |rest|);
  }

  lemma LevelsGivenMeans(data: seq<byte>, size: nat, pos: nat, code: nat, vs: seq<nat>, end: nat)
    requires size <= 8 * |data| && |vs| == 8 && LevelsGiven(data, size, pos, code + 1, vs, end)
    ensures vs[0] < 16 && DeltaLevels(data, size, pos, code, vs[0], 8) == Levels(vs, end, true)
  {
    hide DeltaLevels;
  }

  lemma PeekHeld(data: seq<byte>, size: nat, pos: nat, n: nat, v: nat)
    requires size <= 8 * |data| && n <= 9 && v < Pow2(n) && Ahead(data, size, pos, BitsOfNumber(n, v))
    ensures Peek(data, size, pos, n) == Bits(v)
  {
    FieldHeld(data, size, pos, n, v);
    hide Peek, Ahead, BitsOfNumber, Pow2;
  }

  /** Written intensities are read back, in all versions and codes. */
  lemma LevelsReadBack(data: seq<byte>, size: nat, pos: nat, version: nat, code: nat, vs: seq<nat>, before: seq<nat>)
    requires size <= 8 * |data| && |vs| == |before| == 8 && code < 4 && Below(vs, 16) && vs[0] < 15
    requires Ahead(data, size, pos, LevelBits(version, code, vs))
    ensures UnpackedLevels(data, size, pos, before, version) == Levels(vs, pos + |LevelBits(version, code, vs)|, true)
  {
    hide *;
    LevelBitsParts(version, code, vs);
    var rest := if version <= HCA_VERSION_200 then FixedWords(4, vs[1..]) else CodedLevelBits(code, vs);
    AheadParts(data, size, pos, BitsOfNumber(4, vs[0]), rest);
    FirstLevelRead(data, size, pos, version, vs[0], before);
    if version <= HCA_VERSION_200 {
      FixedLevelsRead(data, size, pos + 4, vs);
    } else {
      CodedLevelsRead(data, size, pos + 4, code, vs, before);
    }
  }

  lemma FirstLevelRead(data: seq<byte>, size: nat, pos: nat, version: nat, first: nat, before: seq<nat>)
    requires size <= 8 * |data| && |before| == 8 && first < 15 && Ahead(data, size, pos, BitsOfNumber(4, first))
    ensures UnpackedLevels(data, size, pos, before, version)
         == if version <= HCA_VERSION_200 then FixedLevels(data, size, pos + 4, first)
            else CodedLevels(data, size, pos + 4, before, first)
  {
    hide *;
    Powers();
    PeekHeld(data, size, pos, 4, first);
    UnpackedLevelsParts(data, size, pos, before, version, first);
  }

  /** Fifteen means sevens from version 3 on; before it keeps the other seven intensities, and the cursor. */
  lemma FifteenReads(data: seq<byte>, size: nat, pos: nat, version: nat, before: seq<nat>)
    requires size <= 8 * |data| && |before| == 8 && Ahead(data, size, pos, [true, true, true, true])
    ensures UnpackedLevels(data, size, pos, before, version)
         == if version <= HCA_VERSION_200 then Levels([15] + before[1..], pos, true) else Levels([7, 7, 7, 7, 7, 7, 7, 7], pos + 4, true)
  {
    Powers();
    assert BitsOfNumber(4, 15) == [true, true, true, true];
    PeekHeld(data, size, pos, 4, 15);
    hide Peek, Ahead, Pow2;
    assert before[0 := 15] == [15] + before[1..];
    assert seq(8, _ => 7) == [7, 7, 7, 7, 7, 7, 7, 7];
  }

  // ---------- all side information of a channel ----------

  /** What a channel is to get in one frame: intensities for a secondary channel, group scales up to version 2.00 for others. */
  datatype ChannelPlan = ChannelPlan(width: nat, scales: seq<nat>, code: nat, levels: seq<nat>, groups: seq<nat>)

  predicate Writable(p: ChannelPlan, t: ChannelType, codedCount: nat, groupCount: nat, version: nat)
  {
    var extra := ExtraCount(t, groupCount, version);
    (if extra == 0 then codedCount <= 128 else codedCount + extra < 128)
    && Fits(p.width, p.scales, codedCount + extra)
    && LevelsWritable(p, t, groupCount, version)
  }

  predicate LevelsWritable(p: ChannelPlan, t: ChannelType, groupCount: nat, version: nat)
  {
    if t.StereoSecondary? then p.code < 4 && |p.levels| == 8 && Below(p.levels, 16) && p.levels[0] < 15
    else version <= HCA_VERSION_200 ==> groupCount <= 128 && |p.groups| == groupCount && Below(p.groups, 64)
  }

  function IntensityBits(p: ChannelPlan, t: ChannelType, groupCount: nat, version: nat): seq<bool>
    requires LevelsWritable(p, t, groupCount, version)
  {
    if t.StereoSecondary? then LevelBits(version, p.code, p.levels)
    else if version <= HCA_VERSION_200 then FixedWords(6, p.groups) else []
  }

  function SideBits(p: ChannelPlan, t: ChannelType, codedCount: nat, groupCount: nat, version: nat): seq<bool>
    requires Writable(p, t, codedCount, groupCount, version)
  {
    ScaleFactorBits(p.width, p.scales) + IntensityBits(p, t, groupCount, version)
  }

  /** The slots a reader ends up with: written ones, and group scales at the end, of their own or taken over. */
  function ScalesThen(p: ChannelPlan, t: ChannelType, codedCount: nat, groupCount: nat, version: nat, before: seq<nat>)
    : (r: seq<nat>)
    requires Writable(p, t, codedCount, groupCount, version) && |before| == 128
    ensures |r| == 128
  {
    var extra := ExtraCount(t, groupCount, version);
    GroupsThen(p, t, version, Derived(Slots(p.width, p.scales, before), codedCount + extra, extra))
  }

  function GroupsThen(p: ChannelPlan, t: ChannelType, version: nat, vs: seq<nat>): (r: seq<nat>)
    requires |vs| == 128 && (!t.StereoSecondary? && version <= HCA_VERSION_200 ==> |p.groups| <= 128)
    ensures |r| == 128
  {
    if !t.StereoSecondary? && version <= HCA_VERSION_200 then vs[..128 - |p.groups|] + p.groups else vs
  }

  function LevelsThen(p: ChannelPlan, t: ChannelType, before: seq<nat>): seq<nat>
  {
    if t.StereoSecondary? then p.levels else before
  }

  lemma WritableParts(p: ChannelPlan, t: ChannelType, codedCount: nat, groupCount: nat, version: nat)
    requires Writable(p, t, codedCount, groupCount, version)
    ensures var extra := ExtraCount(t, groupCount, version);
      CsCount(codedCount, extra) == codedCount + extra <= 128 && !DerivePanics(codedCount + extra, extra)
      && Fits(p.width, p.scales, codedCount + extra) && LevelsWritable(p, t, groupCount, version)
  {
    hide Fits, LevelsWritable;
    assert (codedCount + ExtraCount(t, groupCount, version)) % WORD == codedCount + ExtraCount(t, groupCount, version);
  }

  lemma ScalesPlanned(data: seq<byte>, size: nat, pos: nat, p: ChannelPlan, t: ChannelType, codedCount: nat, groupCount: nat,
                      version: nat, before: seq<nat>)
    requires size <= 8 * |data| && |before| == 128 && Writable(p, t, codedCount, groupCount, version)
    requires Ahead(data, size, pos, ScaleFactorBits(p.width, p.scales))
    ensures var extra := ExtraCount(t, groupCount, version);
      ScalesAfter(data, size, pos, t, codedCount, before, groupCount, version)
      == ScalesRead(Derived(Slots(p.width, p.scales, before), codedCount + extra, extra),
                    pos + |ScaleFactorBits(p.width, p.scales)|)
  {
    hide *;
    WritableParts(p, t, codedCount, groupCount, version);
    SideBitsParts(p, t, codedCount, groupCount, version, before);
    var csCount := codedCount + ExtraCount(t, groupCount, version);
    ScaleFactorsReadBack(data, size, pos, p.width, p.scales, before, csCount);
    ScalesParts(data, size, pos, t, codedCount, before, groupCount, version, Slots(p.width, p.scales, before),
                pos + |ScaleFactorBits(p.width, p.scales)|);
  }

  lemma IntensitiesPlanned(data: seq<byte>, size: nat, pos: nat, p: ChannelPlan, t: ChannelType, groupCount: nat,
                           version: nat, vs: seq<nat>, intensity: seq<nat>)
    requires size <= 8 * |data| && |vs| == 128 && |intensity| == 8 && LevelsWritable(p, t, groupCount, version)
    requires Ahead(data, size, pos, IntensityBits(p, t, groupCount, version))
    ensures IntensitiesAfter(data, size, pos, t, vs, intensity, groupCount, version)
         == IntensitiesRead(GroupsThen(p, t, version, vs), LevelsThen(p, t, intensity),
                            pos + |IntensityBits(p, t, groupCount, version)|, true)
  {
    hide Ahead, LevelBits, FixedWords, FixedFields, UnpackedLevels, Below;
    if t.StereoSecondary? {
      LevelsReadBack(data, size, pos, version, p.code, p.levels, intensity);
    } else if version <= HCA_VERSION_200 {
      GroupsRead(data, size, pos, p.groups);
    }
  }

  lemma GroupsRead(data: seq<byte>, size: nat, pos: nat, groups: seq<nat>)
    requires size <= 8 * |data| && Below(groups, 64) && Ahead(data, size, pos, FixedWords(6, groups))
    ensures FixedFields(data, size, pos, 6, |groups|) == Values(groups, pos + |FixedWords(6, groups)|)
  {
    hide *;
    Powers();
    FixedRead(data, size, pos, 6, groups);
  }

  /** Everything written for a channel is read back by the unpacking of its side information, and nothing more is consumed. */
  lemma SideReadsBack(data: seq<byte>, size: nat, pos: nat, p: ChannelPlan, t: ChannelType, codedCount: nat, groupCount: nat,
                      version: nat, before: seq<nat>, intensity: seq<nat>)
    requires size <= 8 * |data| && |before| == 128 && |intensity| == 8 && Writable(p, t, codedCount, groupCount, version)
    requires Ahead(data, size, pos, SideBits(p, t, codedCount, groupCount, version))
    ensures SideAfter(data, size, pos, t, codedCount, before, intensity, groupCount, version)
         == SideRead(ScalesThen(p, t, codedCount, groupCount, version, before), LevelsThen(p, t, intensity),
                     pos + |SideBits(p, t, codedCount, groupCount, version)|)
  {
    hide *;
    WritableParts(p, t, codedCount, groupCount, version);
    SideBitsParts(p, t, codedCount, groupCount, version, before);
    var extra := ExtraCount(t, groupCount, version);
    var vs := Derived(Slots(p.width, p.scales, before), codedCount + extra, extra);
    AheadParts(data, size, pos, ScaleFactorBits(p.width, p.scales), IntensityBits(p, t, groupCount, version));
    ScalesPlanned(data, size, pos, p, t, codedCount, groupCount, version, before);
    IntensitiesPlanned(data, size, pos + |ScaleFactorBits(p.width, p.scales)|, p, t, groupCount, version, vs, intensity);
    SideParts(data, size, pos, t, codedCount, before, intensity, groupCount, version);
  }

  lemma SideBitsParts(p: ChannelPlan, t: ChannelType, codedCount: nat, groupCount: nat, version: nat, before: seq<nat>)
    requires Writable(p, t, codedCount, groupCount, version) && |before| == 128
    ensures var extra := ExtraCount(t, groupCount, version);
      p.width < 8 && (0 < p.width < 6 ==> p.scales != []) && |p.scales| <= 128
      && (!t.StereoSecondary? && version <= HCA_VERSION_200 ==> |p.groups| <= 128)
      && LevelsWritable(p, t, groupCount, version) && !DerivePanics(codedCount + extra, extra)
      && SideBits(p, t, codedCount, groupCount, version)
         == ScaleFactorBits(p.width, p.scales) + IntensityBits(p, t, groupCount, version)
      && ScalesThen(p, t, codedCount, groupCount, version, before)
         == GroupsThen(p, t, version, Derived(Slots(p.width, p.scales, before), codedCount + extra, extra))
  {
    hide ScaleFactorBits, IntensityBits, GroupsThen, Derived, Slots;
  }
}

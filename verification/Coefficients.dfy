/**
  Spectral coefficients: a code of the largest width is read, looked up, and the bits
  it did not need are given back. This equals decoding one bit at a time.
 */
module Coefficients {
  import opened BitReader
  import opened Bytes
  import opened Common

  // ---------- the tables, row by row: entry (resolution << 4) + code is row resolution, column code ----------

  function MaxBits(resolution: nat): nat
    requires resolution < 16
  {
    match resolution
    case 0 => 0
    case 1 => 2
    case 2 => 3
    case 3 => 3
    case 4 => 4
    case 5 => 4
    case 6 => 4
    case 7 => 4
    case 8 => 5
    case 9 => 6
    case 10 => 7
    case 11 => 8
    case 12 => 9
    case 13 => 10
    case 14 => 11
    case _ => 12
  }

  function ReadBits(resolution: nat): (row: seq<nat>)
    requires resolution < 8
    ensures |row| == 16
  {
    match resolution
    case 0 => [0, 0, 0, 0, 0, 0, 0, 0, 0, 0, 0, 0, 0, 0, 0, 0]
    case 1 => [1, 1, 2, 2, 0, 0, 0, 0, 0, 0, 0, 0, 0, 0, 0, 0]
    case 2 => [2, 2, 2, 2, 2, 2, 3, 3, 0, 0, 0, 0, 0, 0, 0, 0]
    case 3 => [2, 2, 3, 3, 3, 3, 3, 3, 0, 0, 0, 0, 0, 0, 0, 0]
    case 4 => [3, 3, 3, 3, 3, 3, 3, 3, 3, 3, 3, 3, 3, 3, 4, 4]
    case 5 => [3, 3, 3, 3, 3, 3, 3, 3, 3, 3, 4, 4, 4, 4, 4, 4]
    case 6 => [3, 3, 3, 3, 3, 3, 4, 4, 4, 4, 4, 4, 4, 4, 4, 4]
    case _ => [3, 3, 4, 4, 4, 4, 4, 4, 4, 4, 4, 4, 4, 4, 4, 4]
  }

  function ReadVals(resolution: nat): (row: seq<int>)
    requires resolution < 8
    ensures |row| == 16
  {
    match resolution
    case 0 => [0, 0, 0, 0, 0, 0, 0, 0, 0, 0, 0, 0, 0, 0, 0, 0]
    case 1 => [0, 0, 1, -1, 0, 0, 0, 0, 0, 0, 0, 0, 0, 0, 0, 0]
    case 2 => [0, 0, 1, 1, -1, -1, 2, -2, 0, 0, 0, 0, 0, 0, 0, 0]
    case 3 => [0, 0, 1, -1, 2, -2, 3, -3, 0, 0, 0, 0, 0, 0, 0, 0]
    case 4 => [0, 0, 1, 1, -1, -1, 2, 2, -2, -2, 3, 3, -3, -3, 4, -4]
    case 5 => [0, 0, 1, 1, -1, -1, 2, 2, -2, -2, 3, -3, 4, -4, 5, -5]
    case 6 => [0, 0, 1, 1, -1, -1, 2, -2, 3, -3, 4, -4, 5, -5, 6, -6]
    case _ => [0, 0, 1, -1, 2, -2, 3, -3, 4, -4, 5, -5, 6, -6, 7, -7]
  }

  // ---------- one coefficient, as decoded ----------

  /** (1 - ((code & 1) << 1)) * (code >> 1) in wrapping 64-bit arithmetic. */
  function SignedCode(code: nat): int
  {
    ToInt64((1 - 2 * (code % 2)) % WORD * (code / 2) % WORD)
  }

  datatype Coefficient = Coefficient(value: int, end: nat) | Broken

  function DecodeOne(data: seq<byte>, size: nat, bit: nat, resolution: nat): Coefficient
    requires size <= 8 * |data| && resolution < 16
  {
    var bits := MaxBits(resolution);
    match Peek(data, size, bit, bits)
    case Panic => Broken
    case Bits(code) =>
      if resolution > 7 then
        var signed := SignedCode(code);
        Coefficient(signed, if signed == 0 then bit + bits - 1 else bit + bits)
      else if code < 16 then
        Coefficient(ReadVals(resolution)[code], bit + ReadBits(resolution)[code])
      else Broken
  }

  // ---------- the reference: one bit at a time ----------

  /** The bits so far are a complete code word. */
  predicate IsWord(resolution: nat, len: nat, acc: nat)
    requires resolution < 8
  {
    len <= MaxBits(resolution)
    && var padded := acc * Pow2(MaxBits(resolution) - len);
       padded < 16 && ReadBits(resolution)[padded] == len
  }

  function PrefixDecode(data: seq<byte>, pos: nat, resolution: nat, len: nat, acc: nat): Coefficient
    requires resolution < 8 && len <= MaxBits(resolution) && pos + 12 <= 8 * |data|
    decreases MaxBits(resolution) - len
  {
    if IsWord(resolution, len, acc) then
      Coefficient(ReadVals(resolution)[acc * Pow2(MaxBits(resolution) - len)], pos + len)
    else if len == MaxBits(resolution) then Broken
    else PrefixDecode(data, pos, resolution, len + 1, 2 * acc + BitAt(data, pos + len))
  }

  /** Magnitude first; a sign bit follows unless the magnitude is zero. */
  function SignMagnitudeDecode(data: seq<byte>, pos: nat, bits: nat): Coefficient
    requires 0 < bits && pos + bits <= 8 * |data|
  {
    var magnitude := Value(data, pos, bits - 1);
    if magnitude == 0 then Coefficient(0, pos + bits - 1)
    else
      var negative := BitAt(data, pos + bits - 1) == 1;
      Coefficient(if negative then 0 - magnitude else magnitude as int, pos + bits)
  }

  function ReferenceOne(data: seq<byte>, pos: nat, resolution: nat): Coefficient
    requires resolution < 16 && pos + 12 <= 8 * |data|
  {
    if resolution > 7 then SignMagnitudeDecode(data, pos, MaxBits(resolution))
    else PrefixDecode(data, pos, resolution, 0, 0)
  }

  // ---------- the look-up tables hold a prefix code ----------

  /** What row r says about the first len bits of code c: p is the number of codes that share them. */
  predicate RowAgrees(r: nat, c: nat, len: nat, p: nat)
    requires r < 8 && p > 0 && c < 16
  {
    var padded := c / p * p;
    0 <= padded < 16
    && (len < ReadBits(r)[c] ==> ReadBits(r)[padded] != len)
    && (len == ReadBits(r)[c] ==> ReadBits(r)[padded] == len && ReadVals(r)[padded] == ReadVals(r)[c])
  }

  lemma Row0(c: nat)
    requires c < 1
    ensures RowAgrees(0, c, 0, 1)
    ensures ReadBits(0)[c] <= 0
  {
  }

  lemma Row1(c: nat)
    requires c < 4
    ensures RowAgrees(1, c, 0, 4) && RowAgrees(1, c, 1, 2) && RowAgrees(1, c, 2, 1)
    ensures ReadBits(1)[c] <= 2
  {
  }

  lemma Row2(c: nat)
    requires c < 8
    ensures RowAgrees(2, c, 0, 8) && RowAgrees(2, c, 1, 4) && RowAgrees(2, c, 2, 2) && RowAgrees(2, c, 3, 1)
    ensures ReadBits(2)[c] <= 3
  {
  }

  lemma Row3(c: nat)
    requires c < 8
    ensures RowAgrees(3, c, 0, 8) && RowAgrees(3, c, 1, 4) && RowAgrees(3, c, 2, 2) && RowAgrees(3, c, 3, 1)
    ensures ReadBits(3)[c] <= 3
  {
  }

  lemma Row4(c: nat)
    requires c < 16
    ensures RowAgrees(4, c, 0, 16) && RowAgrees(4, c, 1, 8) && RowAgrees(4, c, 2, 4) && RowAgrees(4, c, 3, 2) && RowAgrees(4, c, 4, 1)
    ensures ReadBits(4)[c] <= 4
  {
  }

  lemma Row5(c: nat)
    requires c < 16
    ensures RowAgrees(5, c, 0, 16) && RowAgrees(5, c, 1, 8) && RowAgrees(5, c, 2, 4) && RowAgrees(5, c, 3, 2) && RowAgrees(5, c, 4, 1)
    ensures ReadBits(5)[c] <= 4
  {
  }

  lemma Row6(c: nat)
    requires c < 16
    ensures RowAgrees(6, c, 0, 16) && RowAgrees(6, c, 1, 8) && RowAgrees(6, c, 2, 4) && RowAgrees(6, c, 3, 2) && RowAgrees(6, c, 4, 1)
    ensures ReadBits(6)[c] <= 4
  {
  }

  lemma Row7(c: nat)
    requires c < 16
    ensures RowAgrees(7, c, 0, 16) && RowAgrees(7, c, 1, 8) && RowAgrees(7, c, 2, 4) && RowAgrees(7, c, 3, 2) && RowAgrees(7, c, 4, 1)
    ensures ReadBits(7)[c] <= 4
  {
  }

  // ---------- the values of the rows ----------

  /** The words of a row, in order, are those of 0, 1, -1, 2, -2 and so on to the negated resolution, and never get shorter. */
  predicate RowOrdered(r: nat, c: nat)
    requires 0 < r < 8 && c < 16
  {
    var v, spare, codes := ReadVals(r)[c], MaxBits(r) - ReadBits(r)[c], Pow2(MaxBits(r));
    0 <= spare <= 1
    && (c == 0 ==> v == 0) && (c == codes - 1 ==> v == 0 - r)
    && (c + 1 < codes && c < 15 ==>
          ReadBits(r)[c] <= ReadBits(r)[c + 1]
          && ReadVals(r)[c + 1] == if c / Pow2(spare) == (c + 1) / Pow2(spare) then v else if v > 0 then 0 - v else 1 - v)
  }

  lemma Ordered1(c: nat)
    requires c < 4
    ensures RowOrdered(1, c)
  {
    SmallPowers();
    hide Pow2;
  }

  lemma Ordered2(c: nat)
    requires c < 8
    ensures RowOrdered(2, c)
  {
    SmallPowers();
    hide Pow2;
  }

  lemma Ordered3(c: nat)
    requires c < 8
    ensures RowOrdered(3, c)
  {
    SmallPowers();
    hide Pow2;
  }

  lemma Ordered4(c: nat)
    requires c < 16
    ensures RowOrdered(4, c)
  {
    SmallPowers();
    hide Pow2;
  }

  lemma Ordered5(c: nat)
    requires c < 16
    ensures RowOrdered(5, c)
  {
    SmallPowers();
    hide Pow2;
  }

  lemma Ordered6(c: nat)
    requires c < 16
    ensures RowOrdered(6, c)
  {
    SmallPowers();
    hide Pow2;
  }

  lemma Ordered7(c: nat)
    requires c < 16
    ensures RowOrdered(7, c)
  {
    SmallPowers();
    hide Pow2;
  }

  lemma LowWidths()
    ensures MaxBits(1) == 2 && MaxBits(2) == 3 && MaxBits(3) == 3
  {
  }

  lemma RowIsOrdered(r: nat, c: nat)
    requires 0 < r < 8 && c < 16 && c < Pow2(MaxBits(r))
    ensures RowOrdered(r, c)
  {
    hide *;
    SmallPowers();
    LowWidths();
    if r == 1 {
      Ordered1(c);
    } else if r == 2 {
      Ordered2(c);
    } else if r == 3 {
      Ordered3(c);
    } else if r == 4 {
      Ordered4(c);
    } else if r == 5 {
      Ordered5(c);
    } else if r == 6 {
      Ordered6(c);
    } else {
      Ordered7(c);
    }
  }

  lemma LowRowIsPrefixCode(r: nat, c: nat, len: nat)
    requires r < 4 && len <= MaxBits(r) && c < Pow2(MaxBits(r)) && c < 16
    ensures RowAgrees(r, c, len, Pow2(MaxBits(r) - len)) && ReadBits(r)[c] <= MaxBits(r)
  {
    hide Pow2, ReadBits, ReadVals, RowAgrees;
    SmallPowers();
    if r == 0 {
      Row0(c);
    } else if r == 1 {
      Row1(c);
    } else if r == 2 {
      Row2(c);
    } else if r == 3 {
      Row3(c);
    }
  }

  lemma MiddleRowIsPrefixCode(r: nat, c: nat, len: nat)
    requires 4 <= r < 6 && len <= MaxBits(r) && c < Pow2(MaxBits(r)) && c < 16
    ensures RowAgrees(r, c, len, Pow2(MaxBits(r) - len)) && ReadBits(r)[c] <= MaxBits(r)
  {
    hide Pow2, ReadBits, ReadVals, RowAgrees;
    SmallPowers();
    if r == 4 {
      Row4(c);
    } else {
      Row5(c);
    }
  }

  lemma HighRowIsPrefixCode(r: nat, c: nat, len: nat)
    requires 6 <= r < 8 && len <= MaxBits(r) && c < Pow2(MaxBits(r)) && c < 16
    ensures RowAgrees(r, c, len, Pow2(MaxBits(r) - len)) && ReadBits(r)[c] <= MaxBits(r)
  {
    hide Pow2, ReadBits, ReadVals, RowAgrees;
    SmallPowers();
    if r == 6 {
      Row6(c);
    } else {
      Row7(c);
    }
  }

  /** No word is a prefix of another, and all codes that start with a word agree on it. */
  lemma RowIsPrefixCode(r: nat, c: nat, len: nat)
    requires r < 8 && len <= MaxBits(r) && c < Pow2(MaxBits(r)) && c < 16
    ensures RowAgrees(r, c, len, Pow2(MaxBits(r) - len)) && ReadBits(r)[c] <= MaxBits(r)
  {
    hide *;
    if r < 4 {
      LowRowIsPrefixCode(r, c, len);
    } else if r < 6 {
      MiddleRowIsPrefixCode(r, c, len);
    } else {
      HighRowIsPrefixCode(r, c, len);
    }
  }

  lemma MaxBitsBound(r: nat)
    requires r < 16
    ensures MaxBits(r) <= 12 && (r < 8 ==> MaxBits(r) <= 4) && (r >= 8 ==> MaxBits(r) == r - 3)
  {
  }

  lemma SmallPowers()
    ensures Pow2(0) == 1 && Pow2(1) == 2 && Pow2(2) == 4 && Pow2(3) == 8 && Pow2(4) == 16
  {
  }

  lemma SmallPow2(k: nat)
    requires k <= 4
    ensures Pow2(k) <= 16
  {
    hide Pow2;
    SmallPowers();
  }

  // ---------- look-up = one bit at a time ----------

  /** The first len bits of a code. */
  lemma LeadingPart(data: seq<byte>, pos: nat, bits: nat, len: nat)
    requires pos + bits <= 8 * |data| && len <= bits
    ensures Value(data, pos, bits) / Pow2(bits - len) == Value(data, pos, len)
  {
    hide Value, Pow2;
    ValueJoin(data, pos, len, bits - len);
    ValueBound(data, pos + len, bits - len);
    QuotientIs(Value(data, pos, len), Pow2(bits - len), Value(data, pos + len, bits - len));
  }

  lemma {:induction false} PrefixDecodeIsLookup(data: seq<byte>, pos: nat, r: nat, len: nat)
    requires r < 8 && pos + 12 <= 8 * |data| && len <= MaxBits(r)
    requires MaxBits(r) <= 12 && Value(data, pos, MaxBits(r)) < 16
    requires len <= ReadBits(r)[Value(data, pos, MaxBits(r))]
    ensures var c := Value(data, pos, MaxBits(r));
      PrefixDecode(data, pos, r, len, Value(data, pos, len)) == Coefficient(ReadVals(r)[c], pos + ReadBits(r)[c])
    decreases 16 - len
  {
    hide ReadBits, ReadVals, Pow2;
    var m := MaxBits(r);
    var c := Value(data, pos, m);
    ValueBound(data, pos, m);
    LeadingPart(data, pos, m, len);
    RowIsPrefixCode(r, c, len);
    assert RowAgrees(r, c, len, Pow2(m - len));
    if len < ReadBits(r)[c] {
      PrefixDecodeIsLookup(data, pos, r, len + 1);
      assert Value(data, pos, len + 1) == 2 * Value(data, pos, len) + BitAt(data, pos + len);
    }
  }

  /** Unsigned wrap-around makes the multiplication by -1 come out negative again. */
  lemma WrappedNegation(h: nat)
    requires h < 2048
    ensures ToInt64((WORD - 1) * h % WORD) == 0 - h
  {
    if h > 0 {
      assert (WORD - 1) * h == (h - 1) * WORD + (WORD - h);
      QuotientIs(h - 1, WORD, WORD - h);
    }
  }

  lemma SignedCodeIs(code: nat)
    requires code < 4096
    ensures SignedCode(code) == if code % 2 == 1 then 0 - code / 2 else code / 2
  {
    if code % 2 == 1 {
      assert (1 - 2 * (code % 2)) % WORD == WORD - 1;
      WrappedNegation(code / 2);
    } else {
      assert (1 - 2 * (code % 2)) % WORD == 1;
    }
  }

  lemma SignMagnitudeIsLookup(data: seq<byte>, pos: nat, bits: nat)
    requires 0 < bits <= 12 && pos + bits <= 8 * |data|
    ensures var signed := SignedCode(Value(data, pos, bits));
      SignMagnitudeDecode(data, pos, bits) == Coefficient(signed, if signed == 0 then pos + bits - 1 else pos + bits)
  {
    var code := Value(data, pos, bits);
    ValueBound(data, pos, bits);
    assert Pow2(12) == 4096;
    Pow2Grows(bits, 12);
    SignedCodeIs(code);
    hide SignedCode;
    assert code == 2 * Value(data, pos, bits - 1) + BitAt(data, pos + bits - 1);
  }

  lemma {:induction false} Pow2Grows(i: nat, j: nat)
    requires i <= j
    ensures Pow2(i) <= Pow2(j)
    decreases j
  {
    if i < j {
      Pow2Grows(i, j - 1);
    }
  }

  /** Reading the largest width, looking up and giving back is decoding bit by bit. */
  lemma DecodeOneIsReference(data: seq<byte>, size: nat, bit: nat, r: nat)
    requires size <= 8 * |data| && r < 16 && bit + 24 <= size
    ensures DecodeOne(data, size, bit, r) == ReferenceOne(data, bit, r)
    ensures DecodeOne(data, size, bit, r).Coefficient? && DecodeOne(data, size, bit, r).end <= bit + 12
  {
    var m := MaxBits(r);
    MaxBitsBound(r);
    ShortPeek(data, size, bit, m);
    hide Peek;
    if r > 7 {
      SignMagnitudeIsLookup(data, bit, m);
      hide SignedCode;
    } else {
      ValueBound(data, bit, m);
      SmallPow2(m);
      RowIsPrefixCode(r, Value(data, bit, m), 0);
      PrefixDecodeIsLookup(data, bit, r, 0);
      hide ReadBits, ReadVals, Pow2;
    }
  }

  // ---------- runs of coefficients ----------

  datatype Coefficients = Coefficients(values: seq<int>, end: nat) | RunBroken

  function Append(before: Coefficients, one: Coefficient): Coefficients
    requires before.Coefficients?
  {
    if one.Broken? then RunBroken else Coefficients(before.values + [one.value], one.end)
  }

  predicate Resolutions(rs: seq<nat>) { forall i :: 0 <= i < |rs| ==> rs[i] < 16 }

  /** The coefficient loop after k coefficients. */
  function DecodeRun(data: seq<byte>, size: nat, bit: nat, rs: seq<nat>, k: nat): Coefficients
    requires size <= 8 * |data| && Resolutions(rs) && k <= |rs|
  {
    if k == 0 then Coefficients([], bit) else
      var before := DecodeRun(data, size, bit, rs, k - 1);
      if before.RunBroken? then RunBroken else Append(before, DecodeOne(data, size, before.end, rs[k - 1]))
  }

  /** The bit-by-bit decoder after k coefficients. */
  function ReferenceRun(data: seq<byte>, pos: nat, rs: seq<nat>, k: nat): Coefficients
    requires Resolutions(rs) && k <= |rs|
  {
    if k == 0 then Coefficients([], pos) else
      var before := ReferenceRun(data, pos, rs, k - 1);
      if before.RunBroken? || before.end + 12 > 8 * |data| then RunBroken
      else Append(before, ReferenceOne(data, before.end, rs[k - 1]))
  }

  /** At least 24 bits are left whenever a coefficient is about to be read. */
  predicate RoomAtEachRead(data: seq<byte>, size: nat, pos: nat, rs: seq<nat>, n: nat)
    requires Resolutions(rs) && n <= |rs|
  {
    forall k :: 0 <= k < n ==>
      ReferenceRun(data, pos, rs, k).Coefficients? && ReferenceRun(data, pos, rs, k).end + 24 <= size
  }

  /** For any sequence of resolutions the coefficient loop is the bit-by-bit decoder. */
  lemma {:induction false} DecodeRunIsReference(data: seq<byte>, size: nat, pos: nat, rs: seq<nat>, k: nat)
    requires size <= 8 * |data| && Resolutions(rs) && k <= |rs|
    requires RoomAtEachRead(data, size, pos, rs, k)
    ensures DecodeRun(data, size, pos, rs, k) == ReferenceRun(data, pos, rs, k)
    ensures DecodeRun(data, size, pos, rs, k).Coefficients? && |DecodeRun(data, size, pos, rs, k).values| == k
  {
    hide DecodeOne, ReferenceOne;
    if k > 0 {
      DecodeRunIsReference(data, size, pos, rs, k - 1);
      DecodeOneIsReference(data, size, ReferenceRun(data, pos, rs, k - 1).end, rs[k - 1]);
    }
  }

  // ---------- the matching encoder ----------

  /** The big-endian number of a bit string. */
  function NumberOf(bits: seq<bool>): nat
  {
    if bits == [] then 0 else 2 * NumberOf(bits[..|bits| - 1]) + (if bits[|bits| - 1] then 1 else 0)
  }

  /** The n low bits of a number, most significant first. */
  function BitsOfNumber(n: nat, v: nat): (r: seq<bool>)
    ensures |r| == n
  {
    if n == 0 then [] else BitsOfNumber(n - 1, v / 2) + [v % 2 == 1]
  }

  lemma {:induction false} NumberOfBits(n: nat, v: nat)
    requires v < Pow2(n)
    ensures NumberOf(BitsOfNumber(n, v)) == v
  {
    if n > 0 {
      NumberOfBits(n - 1, v / 2);
    }
  }

  predicate Representable(r: nat, v: int)
    requires r < 16
  {
    if r < 8 then v <= r && -v <= r
    else
      MaxBitsBound(r);
      v < Pow2(MaxBits(r) - 1) && -v < Pow2(MaxBits(r) - 1)
  }

  /** Row r of the encoder: the first code that stands for each value from -r to r. */
  function FirstCodes(r: nat): (row: seq<nat>)
    requires r < 8
    ensures |row| == 2 * r + 1
  {
    match r
    case 0 => [0]
    case 1 => [3, 0, 2]
    case 2 => [7, 4, 0, 2, 6]
    case 3 => [7, 5, 3, 0, 2, 4, 6]
    case 4 => [15, 12, 8, 4, 0, 2, 6, 10, 14]
    case 5 => [15, 13, 11, 8, 4, 0, 2, 6, 10, 12, 14]
    case 6 => [15, 13, 11, 9, 7, 4, 0, 2, 6, 8, 10, 12, 14]
    case _ => [15, 13, 11, 9, 7, 5, 3, 0, 2, 4, 6, 8, 10, 12, 14]
  }

  function CodeOf(r: nat, v: int): nat
    requires r < 8 && Representable(r, v)
  {
    FirstCodes(r)[v + r]
  }

  /** The word of a value: the shared leading bits of its codes, or magnitude and sign. */
  function Word(r: nat, v: int): seq<bool>
    requires r < 16 && Representable(r, v)
  {
    MaxBitsBound(r);
    if r < 8 then
      FoundCode(r, v);
      BitsOfNumber(MaxBits(r), CodeOf(r, v))[..ReadBits(r)[CodeOf(r, v)]]
    else
      var magnitude: nat := if v < 0 then 0 - v else v;
      BitsOfNumber(MaxBits(r) - 1, magnitude) + (if v == 0 then [] else [v < 0])
  }

  predicate RunRepresentable(rs: seq<nat>, vs: seq<int>)
  {
    |rs| == |vs| && forall i :: 0 <= i < |rs| ==> rs[i] < 16 && Representable(rs[i], vs[i])
  }

  /** The words of the first k coefficients, one after the other. */
  function EncodeRun(rs: seq<nat>, vs: seq<int>, k: nat): seq<bool>
    requires RunRepresentable(rs, vs) && k <= |rs|
  {
    if k == 0 then [] else EncodeRun(rs, vs, k - 1) + Word(rs[k - 1], vs[k - 1])
  }

  /** The stream holds these bits from pos on. */
  predicate HoldsBits(data: seq<byte>, pos: nat, bits: seq<bool>)
  {
    pos + |bits| <= 8 * |data| && forall i :: 0 <= i < |bits| ==> (BitAt(data, pos + i) == 1 <==> bits[i])
  }

  lemma {:induction false} HeldValue(data: seq<byte>, pos: nat, bits: seq<bool>)
    requires HoldsBits(data, pos, bits)
    ensures Value(data, pos, |bits|) == NumberOf(bits)
    decreases |bits|
  {
    if bits != [] {
      HeldValue(data, pos, bits[..|bits| - 1]);
    }
  }

  lemma Found0(v: int)
    requires v <= 0 && -v <= 0
    ensures var c := FirstCodes(0)[v + 0];
      c < 1 && ReadVals(0)[c] == v && ReadBits(0)[c] <= 0
  {
  }

  lemma Found1(v: int)
    requires v <= 1 && -v <= 1
    ensures var c := FirstCodes(1)[v + 1];
      c < 4 && ReadVals(1)[c] == v && ReadBits(1)[c] <= 2
  {
  }

  lemma Found2(v: int)
    requires v <= 2 && -v <= 2
    ensures var c := FirstCodes(2)[v + 2];
      c < 8 && ReadVals(2)[c] == v && ReadBits(2)[c] <= 3
  {
  }

  lemma Found3(v: int)
    requires v <= 3 && -v <= 3
    ensures var c := FirstCodes(3)[v + 3];
      c < 8 && ReadVals(3)[c] == v && ReadBits(3)[c] <= 3
  {
  }

  lemma Found4(v: int)
    requires v <= 4 && -v <= 4
    ensures var c := FirstCodes(4)[v + 4];
      c < 16 && ReadVals(4)[c] == v && ReadBits(4)[c] <= 4
  {
  }

  lemma Found5(v: int)
    requires v <= 5 && -v <= 5
    ensures var c := FirstCodes(5)[v + 5];
      c < 16 && ReadVals(5)[c] == v && ReadBits(5)[c] <= 4
  {
  }

  lemma Found6(v: int)
    requires v <= 6 && -v <= 6
    ensures var c := FirstCodes(6)[v + 6];
      c < 16 && ReadVals(6)[c] == v && ReadBits(6)[c] <= 4
  {
  }

  lemma Found7(v: int)
    requires v <= 7 && -v <= 7
    ensures var c := FirstCodes(7)[v + 7];
      c < 16 && ReadVals(7)[c] == v && ReadBits(7)[c] <= 4
  {
  }

  lemma FoundLowCode(r: nat, v: int)
    requires r < 4 && Representable(r, v)
    ensures CodeOf(r, v) < Pow2(MaxBits(r)) && CodeOf(r, v) < 16
    ensures ReadVals(r)[CodeOf(r, v)] == v && ReadBits(r)[CodeOf(r, v)] <= MaxBits(r)
  {
    assert Pow2(0) == 1 && Pow2(2) == 4 && Pow2(3) == 8 && Pow2(4) == 16;
    hide Pow2, ReadBits, ReadVals, FirstCodes;
    if r == 0 {
      Found0(v);
    } else if r == 1 {
      Found1(v);
    } else if r == 2 {
      Found2(v);
    } else if r == 3 {
      Found3(v);
    }
  }

  lemma FoundMiddleCode(r: nat, v: int)
    requires 4 <= r < 6 && Representable(r, v)
    ensures CodeOf(r, v) < Pow2(MaxBits(r)) && CodeOf(r, v) < 16
    ensures ReadVals(r)[CodeOf(r, v)] == v && ReadBits(r)[CodeOf(r, v)] <= MaxBits(r)
  {
    hide Pow2, ReadBits, ReadVals, FirstCodes;
    SmallPowers();
    if r == 4 {
      Found4(v);
    } else {
      Found5(v);
    }
  }

  lemma FoundHighCode(r: nat, v: int)
    requires 6 <= r < 8 && Representable(r, v)
    ensures CodeOf(r, v) < Pow2(MaxBits(r)) && CodeOf(r, v) < 16
    ensures ReadVals(r)[CodeOf(r, v)] == v && ReadBits(r)[CodeOf(r, v)] <= MaxBits(r)
  {
    hide Pow2, ReadBits, ReadVals, FirstCodes;
    SmallPowers();
    if r == 6 {
      Found6(v);
    } else {
      Found7(v);
    }
  }

  lemma FoundCode(r: nat, v: int)
    requires r < 8 && Representable(r, v)
    ensures CodeOf(r, v) < Pow2(MaxBits(r)) && CodeOf(r, v) < 16
    ensures ReadVals(r)[CodeOf(r, v)] == v && ReadBits(r)[CodeOf(r, v)] <= MaxBits(r)
  {
    hide *;
    if r < 4 {
      FoundLowCode(r, v);
    } else if r < 6 {
      FoundMiddleCode(r, v);
    } else {
      FoundHighCode(r, v);
    }
  }

  // ---------- decoding undoes encoding ----------

  lemma DivideTwice(v: nat, p: nat)
    requires p > 0
    ensures v / (2 * p) == v / 2 / p
  {
    var q, y := v / (2 * p), v % (2 * p);
    assert v == q * (2 * p) + y;
    assert v / 2 == q * p + y / 2 by { assert v == 2 * (q * p) + y; }
    QuotientIs(q, p, y / 2);
  }

  /** Dropping trailing bits divides by a power of two. */
  lemma {:induction false} PrefixNumber(bits: seq<bool>, l: nat)
    requires l <= |bits|
    ensures NumberOf(bits) / Pow2(|bits| - l) == NumberOf(bits[..l])
    decreases |bits|
  {
    if l == |bits| {
      assert bits[..l] == bits;
    } else {
      var n := |bits| - 1;
      PrefixNumber(bits[..n], l);
      assert bits[..n][..l] == bits[..l];
      DivideTwice(NumberOf(bits), Pow2(n - l));
    }
  }

  lemma HoldsPrefix(data: seq<byte>, pos: nat, bits: seq<bool>, l: nat)
    requires HoldsBits(data, pos, bits) && l <= |bits|
    ensures HoldsBits(data, pos, bits[..l]) && Value(data, pos, l) == NumberOf(bits[..l])
  {
    HeldValue(data, pos, bits[..l]);
  }

  /** A code and the bits in the stream that start with the same word share all its prefixes. */
  lemma SharedPrefix(data: seq<byte>, pos: nat, m: nat, c: nat, len: nat, l: nat)
    requires l <= len <= m && c < Pow2(m) && pos + m <= 8 * |data|
    requires HoldsBits(data, pos, BitsOfNumber(m, c)[..len])
    ensures Value(data, pos, m) / Pow2(m - l) == c / Pow2(m - l)
  {
    hide Value, Pow2, NumberOf;
    var bits := BitsOfNumber(m, c);
    HoldsPrefix(data, pos, bits[..len], l);
    assert bits[..len][..l] == bits[..l];
    NumberOfBits(m, c);
    PrefixNumber(bits, l);
    LeadingPart(data, pos, m, l);
  }

  lemma PrefixWordDecodes(data: seq<byte>, pos: nat, r: nat, v: int)
    requires r < 8 && Representable(r, v) && pos + 12 <= 8 * |data| && HoldsBits(data, pos, Word(r, v))
    ensures ReferenceOne(data, pos, r) == Coefficient(v, pos + |Word(r, v)|)
  {
    hide Value, ReadBits, ReadVals, FirstCodes, Pow2, BitsOfNumber, HoldsBits;
    var m := MaxBits(r);
    var c0, c := CodeOf(r, v), Value(data, pos, m);
    MaxBitsBound(r);
    FoundCode(r, v);
    ValueBound(data, pos, m);
    SmallPow2(m);
    var len, got := ReadBits(r)[c0], ReadBits(r)[c];
    RowIsPrefixCode(r, c, 0);
    var least := if len < got then len else got;
    SharedPrefix(data, pos, m, c0, len, least);
    RowIsPrefixCode(r, c0, least);
    RowIsPrefixCode(r, c, least);
    assert len == got && ReadVals(r)[c] == v;
    assert Value(data, pos, 0) == 0 by { EmptyValue(data, pos); }
    PrefixDecodeIsLookup(data, pos, r, 0);
  }

  lemma EmptyValue(data: seq<byte>, pos: nat)
    requires pos <= 8 * |data|
    ensures Value(data, pos, 0) == 0
  {
  }

  /** The magnitude bits of a sign-magnitude word, and its sign bit. */
  lemma SignWordParts(data: seq<byte>, pos: nat, m: nat, v: int, magnitude: nat, word: seq<bool>)
    requires 0 < m && magnitude < Pow2(m - 1) && magnitude == (if v < 0 then 0 - v else v)
    requires word == BitsOfNumber(m - 1, magnitude) + (if v == 0 then [] else [v < 0])
    requires HoldsBits(data, pos, word)
    ensures Value(data, pos, m - 1) == magnitude
    ensures v != 0 ==> pos + m <= 8 * |data| && (BitAt(data, pos + m - 1) == 1 <==> v < 0)
  {
    hide Value, Pow2, NumberOf, BitsOfNumber;
    NumberOfBits(m - 1, magnitude);
    assert word[..m - 1] == BitsOfNumber(m - 1, magnitude);
    HoldsPrefix(data, pos, word, m - 1);
    if v != 0 {
      assert word[m - 1] == (v < 0);
      assert BitAt(data, pos + (m - 1)) == 1 <==> word[m - 1];
    }
  }

  lemma SignWordShape(r: nat, v: int, m: nat, magnitude: nat)
    requires 8 <= r < 16 && Representable(r, v) && m == MaxBits(r) && magnitude == (if v < 0 then 0 - v else v)
    ensures 0 < m && magnitude < Pow2(m - 1) && |Word(r, v)| == if v == 0 then m - 1 else m
    ensures Word(r, v) == BitsOfNumber(m - 1, magnitude) + (if v == 0 then [] else [v < 0])
  {
    hide Pow2, BitsOfNumber;
    MaxBitsBound(r);
  }

  lemma SignWordDecodes(data: seq<byte>, pos: nat, r: nat, v: int)
    requires 8 <= r < 16 && Representable(r, v) && pos + 12 <= 8 * |data| && HoldsBits(data, pos, Word(r, v))
    ensures ReferenceOne(data, pos, r) == Coefficient(v, pos + |Word(r, v)|)
  {
    hide *;
    var m := MaxBits(r);
    MaxBitsBound(r);
    var magnitude: nat := if v < 0 then 0 - v else v;
    SignWordShape(r, v, m, magnitude);
    SignWordParts(data, pos, m, v, magnitude, Word(r, v));
    SignMagnitudeIs(data, pos, m, v, magnitude);
    SignForm(data, pos, r);
  }

  lemma SignMagnitudeIs(data: seq<byte>, pos: nat, m: nat, v: int, magnitude: nat)
    requires 0 < m && pos + m <= 8 * |data| && magnitude == (if v < 0 then 0 - v else v)
    requires Value(data, pos, m - 1) == magnitude && (v != 0 ==> (BitAt(data, pos + m - 1) == 1 <==> v < 0))
    ensures SignMagnitudeDecode(data, pos, m) == Coefficient(v, pos + if v == 0 then m - 1 else m)
  {
    hide Value, BitAt;
  }

  lemma SignForm(data: seq<byte>, pos: nat, r: nat)
    requires 8 <= r < 16 && pos + 12 <= 8 * |data|
    ensures 0 < MaxBits(r) <= 12 && ReferenceOne(data, pos, r) == SignMagnitudeDecode(data, pos, MaxBits(r))
  {
    MaxBitsBound(r);
  }

  /** Every representable coefficient comes back, and exactly its word is consumed. */
  lemma WordDecodes(data: seq<byte>, pos: nat, r: nat, v: int)
    requires r < 16 && Representable(r, v) && pos + 12 <= 8 * |data| && HoldsBits(data, pos, Word(r, v))
    ensures ReferenceOne(data, pos, r) == Coefficient(v, pos + |Word(r, v)|)
  {
    if r < 8 {
      PrefixWordDecodes(data, pos, r, v);
    } else {
      SignWordDecodes(data, pos, r, v);
    }
  }

  lemma BitParts(data: seq<byte>, pos: nat, a: seq<bool>, b: seq<bool>)
    requires HoldsBits(data, pos, a + b)
    ensures HoldsBits(data, pos, a) && HoldsBits(data, pos + |a|, b)
  {
    forall i | 0 <= i < |a| ensures BitAt(data, pos + i) == 1 <==> a[i] {
      assert (a + b)[i] == a[i];
    }
    forall i | 0 <= i < |b| ensures BitAt(data, pos + |a| + i) == 1 <==> b[i] {
      assert (a + b)[|a| + i] == b[i];
      assert pos + (|a| + i) == pos + |a| + i;
    }
  }

  /** The reference decoder inverts the encoder, for any resolutions and coefficients. */
  lemma {:induction false} ReferenceRoundTrip(data: seq<byte>, pos: nat, rs: seq<nat>, vs: seq<int>, k: nat)
    requires RunRepresentable(rs, vs) && k <= |rs| && HoldsBits(data, pos, EncodeRun(rs, vs, k))
    requires k > 0 ==> pos + |EncodeRun(rs, vs, k - 1)| + 12 <= 8 * |data|
    ensures ReferenceRun(data, pos, rs, k) == Coefficients(vs[..k], pos + |EncodeRun(rs, vs, k)|)
  {
    hide HoldsBits, ReferenceOne, Word, Representable;
    if k > 0 {
      var before := EncodeRun(rs, vs, k - 1);
      BitParts(data, pos, before, Word(rs[k - 1], vs[k - 1]));
      ReferenceRoundTrip(data, pos, rs, vs, k - 1);
      WordDecodes(data, pos + |before|, rs[k - 1], vs[k - 1]);
      assert vs[..k] == vs[..k - 1] + [vs[k - 1]];
    }
  }

  lemma {:induction false} EncodeRunGrows(rs: seq<nat>, vs: seq<int>, j: nat, k: nat)
    requires RunRepresentable(rs, vs) && j <= k <= |rs|
    ensures EncodeRun(rs, vs, j) <= EncodeRun(rs, vs, k)
    decreases k
  {
    hide Word, Representable;
    if j < k {
      EncodeRunGrows(rs, vs, j, k - 1);
    }
  }

  lemma RoundTripTo(data: seq<byte>, pos: nat, rs: seq<nat>, vs: seq<int>, k: nat)
    requires RunRepresentable(rs, vs) && k <= |rs| && HoldsBits(data, pos, EncodeRun(rs, vs, |rs|))
    requires rs != [] ==> pos + |EncodeRun(rs, vs, |rs| - 1)| + 12 <= 8 * |data|
    ensures ReferenceRun(data, pos, rs, k) == Coefficients(vs[..k], pos + |EncodeRun(rs, vs, k)|)
  {
    hide HoldsBits, EncodeRun, ReferenceRun, RunRepresentable;
    var whole, part := EncodeRun(rs, vs, |rs|), EncodeRun(rs, vs, k);
    EncodeRunGrows(rs, vs, k, |rs|);
    if k > 0 {
      EncodeRunGrows(rs, vs, k - 1, |rs| - 1);
    }
    assert whole == part + whole[|part|..];
    BitParts(data, pos, part, whole[|part|..]);
    ReferenceRoundTrip(data, pos, rs, vs, k);
  }

  /**
    Round trip through the decoder's own loop: for any resolutions 0..15 and representable
    coefficients, as long as 24 bits are left when the last one is read, the encoded values
    come back and exactly the encoded bits are consumed.
   */
  lemma CoefficientRoundTrip(data: seq<byte>, size: nat, pos: nat, rs: seq<nat>, vs: seq<int>)
    requires size <= 8 * |data| && RunRepresentable(rs, vs) && HoldsBits(data, pos, EncodeRun(rs, vs, |rs|))
    requires rs != [] ==> pos + |EncodeRun(rs, vs, |rs| - 1)| + 24 <= size
    ensures DecodeRun(data, size, pos, rs, |rs|) == Coefficients(vs, pos + |EncodeRun(rs, vs, |rs|)|)
  {
    hide HoldsBits, Representable, EncodeRun, ReferenceRun, DecodeRun;
    var n := |rs|;
    assert vs[..n] == vs;
    forall k | 0 <= k < n
      ensures ReferenceRun(data, pos, rs, k).Coefficients? && ReferenceRun(data, pos, rs, k).end + 24 <= size
    {
      RoundTripTo(data, pos, rs, vs, k);
      EncodeRunGrows(rs, vs, k, n - 1);
    }
    DecodeRunIsReference(data, size, pos, rs, n);
    RoundTripTo(data, pos, rs, vs, n);
  }

  // ---------- writing the bits into bytes ----------

  function Pack(bits: seq<bool>): (data: seq<byte>)
    requires |bits| % 8 == 0
    ensures |data| == |bits| / 8
  {
    if bits == [] then [] else
      var n := |bits| - 8;
      NumberBound(bits[n..]);
      assert Pow2(8) == 256;
      Pack(bits[..n]) + [NumberOf(bits[n..])]
  }

  lemma {:induction false} NumberBound(bits: seq<bool>)
    ensures NumberOf(bits) < Pow2(|bits|)
    decreases |bits|
  {
    if bits != [] {
      NumberBound(bits[..|bits| - 1]);
    }
  }

  lemma {:induction false} PackHolds(bits: seq<bool>, i: nat)
    requires |bits| % 8 == 0 && i < |bits|
    ensures BitAt(Pack(bits), i) == 1 <==> bits[i]
    decreases |bits|
  {
    var n := |bits| - 8;
    var front, last := Pack(bits[..n]), bits[n..];
    NumberBound(last);
    assert Pow2(8) == 256;
    assert Pack(bits) == front + [NumberOf(last)];
    hide Pack, NumberOf, BitAt, Pow2;
    if i < n {
      PackHolds(bits[..n], i);
      FrontBit(front, NumberOf(last), i);
    } else {
      LastBit(front, NumberOf(last), i - n);
      BitOfNumber(last, i - n);
    }
  }

  lemma FrontBit(front: seq<byte>, x: byte, i: nat)
    requires i < 8 * |front|
    ensures BitAt(front + [x], i) == BitAt(front, i)
  {
    hide Pow2;
    assert (front + [x])[i / 8] == front[i / 8];
  }

  lemma LastBit(front: seq<byte>, x: byte, j: nat)
    requires j < 8
    ensures BitAt(front + [x], 8 * |front| + j) == x / Pow2(7 - j) % 2
  {
    hide Pow2;
    var i := 8 * |front| + j;
    assert i / 8 == |front| && i % 8 == j;
  }

  lemma BitOfNumber(bits: seq<bool>, j: nat)
    requires j < |bits|
    ensures NumberOf(bits) / Pow2(|bits| - 1 - j) % 2 == if bits[j] then 1 else 0
  {
    PrefixNumber(bits, j + 1);
    LastDigit(bits[..j + 1]);
    hide Pow2, NumberOf;
    assert |bits| - (j + 1) == |bits| - 1 - j;
  }

  lemma LastDigit(bits: seq<bool>)
    requires bits != []
    ensures NumberOf(bits) % 2 == if bits[|bits| - 1] then 1 else 0
  {
    var n := NumberOf(bits[..|bits| - 1]);
    var last := if bits[|bits| - 1] then 1 else 0;
    assert NumberOf(bits) == 2 * n + last;
    hide NumberOf;
    OddPart(n, last);
  }

  lemma OddPart(n: nat, b: nat)
    requires b < 2
    ensures (2 * n + b) % 2 == b
  {
  }

  /** A packed stream holds its bits, so every run has a stream that decodes to it. */
  lemma PackedStreamHolds(bits: seq<bool>, pos: nat, part: seq<bool>)
    requires |bits| % 8 == 0 && pos + |part| <= |bits| && bits[pos..pos + |part|] == part
    ensures HoldsBits(Pack(bits), pos, part)
  {
    forall i | 0 <= i < |part| ensures BitAt(Pack(bits), pos + i) == 1 <==> part[i] {
      PackHolds(bits, pos + i);
      assert bits[pos..pos + |part|][i] == bits[pos + i];
    }
  }

  // ---------- the coefficient loop of one subframe ----------

  /** A coefficient times the gain of its band. */
  function Scaled(gain: real, value: int): real { gain * (value as real) }

  /** The coded part of the spectrum; a panic of the bit reader ends the loop. */
  method ReadCoded(br: ClData, resolution: array<nat>, gain: array<real>, codedCount: nat, spectra: array<real>)
    returns (ok: bool, ghost run: Coefficients)
    requires br.Valid() && codedCount <= 128 && resolution.Length == gain.Length == spectra.Length == 128
    requires spectra != gain && Resolutions(resolution[..])
    modifies br`bit, spectra
    ensures run == DecodeRun(br.data, br.size, old(br.bit), old(resolution[..]), codedCount) && ok == run.Coefficients?
    ensures ok ==> br.bit == run.end && |run.values| == codedCount
    ensures ok ==> forall k :: 0 <= k < codedCount ==> spectra[k] == Scaled(gain[k], run.values[k])
  {
    hide DecodeOne, Scaled;
    ghost var start, rs := br.bit, resolution[..];
    run := Coefficients([], start);
    var i := 0;
    while i < codedCount
      invariant 0 <= i <= codedCount
      invariant run == DecodeRun(br.data, br.size, start, rs, i)
      invariant run.Coefficients? && |run.values| == i && br.bit == run.end
      invariant forall k :: 0 <= k < i ==> spectra[k] == Scaled(gain[k], run.values[k])
    {
      var value: int;
      value, ok := ReadCoefficient(br, resolution[i]);
      run := DecodeRun(br.data, br.size, start, rs, i + 1);
      if !ok {
        BrokenStays(br.data, br.size, start, rs, i + 1, codedCount);
        return;
      }
      spectra[i] := Scaled(gain[i], value);
      i := i + 1;
    }
    ok := true;
  }

  /** Fills the coded part of the spectrum and clears the rest. */
  method DequantizeCoefficients(br: ClData, resolution: array<nat>, gain: array<real>, codedCount: nat,
                                spectra: array<real>)
    returns (ok: bool)
    requires br.Valid() && codedCount <= 128 && resolution.Length == gain.Length == spectra.Length == 128
    requires spectra != gain && Resolutions(resolution[..])
    modifies br`bit, spectra
    ensures var run := DecodeRun(br.data, br.size, old(br.bit), old(resolution[..]), codedCount);
      ok == run.Coefficients?
      && (ok ==> br.bit == run.end && |run.values| == codedCount
                 && (forall k :: 0 <= k < codedCount ==> spectra[k] == Scaled(gain[k], run.values[k]))
                 && forall k :: codedCount <= k < 128 ==> spectra[k] == 0.0)
  {
    hide DecodeRun, Scaled;
    ghost var run;
    ok, run := ReadCoded(br, resolution, gain, codedCount, spectra);
    if ok {
      for i := codedCount to 128
        modifies spectra
        invariant forall k :: 0 <= k < codedCount ==> spectra[k] == Scaled(gain[k], run.values[k])
        invariant forall k :: codedCount <= k < i ==> spectra[k] == 0.0
      {
        spectra[i] := 0.0;
      }
    }
  }

  /** Read the largest width, look up, give bits back. */
  method ReadCoefficient(br: ClData, resolution: nat) returns (value: int, ok: bool)
    requires br.Valid() && resolution < 16
    modifies br`bit
    ensures var one := DecodeOne(br.data, br.size, old(br.bit), resolution);
      ok == one.Coefficient? && (ok ==> value == one.value && br.bit == one.end)
  {
    MaxBitsBound(resolution);
    var bits := MaxBits(resolution);
    var code := br.Read(bits);
    value, ok := 0, code.Bits?;
    if ok {
      if resolution > 7 {
        value := SignedCode(code.v);
        if value == 0 {
          br.Skip(-1);
        }
      } else if code.v < 16 {
        value := ReadVals(resolution)[code.v];
        var skip: int := ReadBits(resolution)[code.v] as int - bits as int;
        br.Skip(skip);
      } else {
        ok := false;
      }
    }
  }

  lemma {:induction false} BrokenStays(data: seq<byte>, size: nat, bit: nat, rs: seq<nat>, k: nat, n: nat)
    requires size <= 8 * |data| && Resolutions(rs) && k <= n <= |rs|
    requires DecodeRun(data, size, bit, rs, k).RunBroken?
    ensures DecodeRun(data, size, bit, rs, n).RunBroken?
    decreases n
  {
    hide DecodeOne;
    if k < n {
      BrokenStays(data, size, bit, rs, k, n - 1);
    }
  }
}

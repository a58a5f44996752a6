/**
  The frame checksum: a table lookup per byte, which is polynomial division by
  x^16 + x^15 + x^2 + 1 (0x8005), most significant bit first, from a zero start.
 */
module Crc {

  // ---------- the lookup table, in rows of sixteen ----------

  function Row0(i: bv8): bv16
  {
    if i == 0x0 then 0x0000 else if i == 0x1 then 0x8005 else if i == 0x2 then 0x800F else if i == 0x3 then 0x000A else
    if i == 0x4 then 0x801B else if i == 0x5 then 0x001E else if i == 0x6 then 0x0014 else if i == 0x7 then 0x8011 else
    if i == 0x8 then 0x8033 else if i == 0x9 then 0x0036 else if i == 0xA then 0x003C else if i == 0xB then 0x8039 else
    if i == 0xC then 0x0028 else if i == 0xD then 0x802D else if i == 0xE then 0x8027 else 0x0022
  }

  function Row1(i: bv8): bv16
  {
    if i == 0x0 then 0x8063 else if i == 0x1 then 0x0066 else if i == 0x2 then 0x006C else if i == 0x3 then 0x8069 else
    if i == 0x4 then 0x0078 else if i == 0x5 then 0x807D else if i == 0x6 then 0x8077 else if i == 0x7 then 0x0072 else
    if i == 0x8 then 0x0050 else if i == 0x9 then 0x8055 else if i == 0xA then 0x805F else if i == 0xB then 0x005A else
    if i == 0xC then 0x804B else if i == 0xD then 0x004E else if i == 0xE then 0x0044 else 0x8041
  }

  function Row2(i: bv8): bv16
  {
    if i == 0x0 then 0x80C3 else if i == 0x1 then 0x00C6 else if i == 0x2 then 0x00CC else if i == 0x3 then 0x80C9 else
    if i == 0x4 then 0x00D8 else if i == 0x5 then 0x80DD else if i == 0x6 then 0x80D7 else if i == 0x7 then 0x00D2 else
    if i == 0x8 then 0x00F0 else if i == 0x9 then 0x80F5 else if i == 0xA then 0x80FF else if i == 0xB then 0x00FA else
    if i == 0xC then 0x80EB else if i == 0xD then 0x00EE else if i == 0xE then 0x00E4 else 0x80E1
  }

  function Row3(i: bv8): bv16
  {
    if i == 0x0 then 0x00A0 else if i == 0x1 then 0x80A5 else if i == 0x2 then 0x80AF else if i == 0x3 then 0x00AA else
    if i == 0x4 then 0x80BB else if i == 0x5 then 0x00BE else if i == 0x6 then 0x00B4 else if i == 0x7 then 0x80B1 else
    if i == 0x8 then 0x8093 else if i == 0x9 then 0x0096 else if i == 0xA then 0x009C else if i == 0xB then 0x8099 else
    if i == 0xC then 0x0088 else if i == 0xD then 0x808D else if i == 0xE then 0x8087 else 0x0082
  }

  function Row4(i: bv8): bv16
  {
    if i == 0x0 then 0x8183 else if i == 0x1 then 0x0186 else if i == 0x2 then 0x018C else if i == 0x3 then 0x8189 else
    if i == 0x4 then 0x0198 else if i == 0x5 then 0x819D else if i == 0x6 then 0x8197 else if i == 0x7 then 0x0192 else
    if i == 0x8 then 0x01B0 else if i == 0x9 then 0x81B5 else if i == 0xA then 0x81BF else if i == 0xB then 0x01BA else
    if i == 0xC then 0x81AB else if i == 0xD then 0x01AE else if i == 0xE then 0x01A4 else 0x81A1
  }

  function Row5(i: bv8): bv16
  {
    if i == 0x0 then 0x01E0 else if i == 0x1 then 0x81E5 else if i == 0x2 then 0x81EF else if i == 0x3 then 0x01EA else
    if i == 0x4 then 0x81FB else if i == 0x5 then 0x01FE else if i == 0x6 then 0x01F4 else if i == 0x7 then 0x81F1 else
    if i == 0x8 then 0x81D3 else if i == 0x9 then 0x01D6 else if i == 0xA then 0x01DC else if i == 0xB then 0x81D9 else
    if i == 0xC then 0x01C8 else if i == 0xD then 0x81CD else if i == 0xE then 0x81C7 else 0x01C2
  }

  function Row6(i: bv8): bv16
  {
    if i == 0x0 then 0x0140 else if i == 0x1 then 0x8145 else if i == 0x2 then 0x814F else if i == 0x3 then 0x014A else
    if i == 0x4 then 0x815B else if i == 0x5 then 0x015E else if i == 0x6 then 0x0154 else if i == 0x7 then 0x8151 else
    if i == 0x8 then 0x8173 else if i == 0x9 then 0x0176 else if i == 0xA then 0x017C else if i == 0xB then 0x8179 else
    if i == 0xC then 0x0168 else if i == 0xD then 0x816D else if i == 0xE then 0x8167 else 0x0162
  }

  function Row7(i: bv8): bv16
  {
    if i == 0x0 then 0x8123 else if i == 0x1 then 0x0126 else if i == 0x2 then 0x012C else if i == 0x3 then 0x8129 else
    if i == 0x4 then 0x0138 else if i == 0x5 then 0x813D else if i == 0x6 then 0x8137 else if i == 0x7 then 0x0132 else
    if i == 0x8 then 0x0110 else if i == 0x9 then 0x8115 else if i == 0xA then 0x811F else if i == 0xB then 0x011A else
    if i == 0xC then 0x810B else if i == 0xD then 0x010E else if i == 0xE then 0x0104 else 0x8101
  }

  function Row8(i: bv8): bv16
  {
    if i == 0x0 then 0x8303 else if i == 0x1 then 0x0306 else if i == 0x2 then 0x030C else if i == 0x3 then 0x8309 else
    if i == 0x4 then 0x0318 else if i == 0x5 then 0x831D else if i == 0x6 then 0x8317 else if i == 0x7 then 0x0312 else
    if i == 0x8 then 0x0330 else if i == 0x9 then 0x8335 else if i == 0xA then 0x833F else if i == 0xB then 0x033A else
    if i == 0xC then 0x832B else if i == 0xD then 0x032E else if i == 0xE then 0x0324 else 0x8321
  }

  function Row9(i: bv8): bv16
  {
    if i == 0x0 then 0x0360 else if i == 0x1 then 0x8365 else if i == 0x2 then 0x836F else if i == 0x3 then 0x036A else
    if i == 0x4 then 0x837B else if i == 0x5 then 0x037E else if i == 0x6 then 0x0374 else if i == 0x7 then 0x8371 else
    if i == 0x8 then 0x8353 else if i == 0x9 then 0x0356 else if i == 0xA then 0x035C else if i == 0xB then 0x8359 else
    if i == 0xC then 0x0348 else if i == 0xD then 0x834D else if i == 0xE then 0x8347 else 0x0342
  }

  function RowA(i: bv8): bv16
  {
    if i == 0x0 then 0x03C0 else if i == 0x1 then 0x83C5 else if i == 0x2 then 0x83CF else if i == 0x3 then 0x03CA else
    if i == 0x4 then 0x83DB else if i == 0x5 then 0x03DE else if i == 0x6 then 0x03D4 else if i == 0x7 then 0x83D1 else
    if i == 0x8 then 0x83F3 else if i == 0x9 then 0x03F6 else if i == 0xA then 0x03FC else if i == 0xB then 0x83F9 else
    if i == 0xC then 0x03E8 else if i == 0xD then 0x83ED else if i == 0xE then 0x83E7 else 0x03E2
  }

  function RowB(i: bv8): bv16
  {
    if i == 0x0 then 0x83A3 else if i == 0x1 then 0x03A6 else if i == 0x2 then 0x03AC else if i == 0x3 then 0x83A9 else
    if i == 0x4 then 0x03B8 else if i == 0x5 then 0x83BD else if i == 0x6 then 0x83B7 else if i == 0x7 then 0x03B2 else
    if i == 0x8 then 0x0390 else if i == 0x9 then 0x8395 else if i == 0xA then 0x839F else if i == 0xB then 0x039A else
    if i == 0xC then 0x838B else if i == 0xD then 0x038E else if i == 0xE then 0x0384 else 0x8381
  }

  function RowC(i: bv8): bv16
  {
    if i == 0x0 then 0x0280 else if i == 0x1 then 0x8285 else if i == 0x2 then 0x828F else if i == 0x3 then 0x028A else
    if i == 0x4 then 0x829B else if i == 0x5 then 0x029E else if i == 0x6 then 0x0294 else if i == 0x7 then 0x8291 else
    if i == 0x8 then 0x82B3 else if i == 0x9 then 0x02B6 else if i == 0xA then 0x02BC else if i == 0xB then 0x82B9 else
    if i == 0xC then 0x02A8 else if i == 0xD then 0x82AD else if i == 0xE then 0x82A7 else 0x02A2
  }

  function RowD(i: bv8): bv16
  {
    if i == 0x0 then 0x82E3 else if i == 0x1 then 0x02E6 else if i == 0x2 then 0x02EC else if i == 0x3 then 0x82E9 else
    if i == 0x4 then 0x02F8 else if i == 0x5 then 0x82FD else if i == 0x6 then 0x82F7 else if i == 0x7 then 0x02F2 else
    if i == 0x8 then 0x02D0 else if i == 0x9 then 0x82D5 else if i == 0xA then 0x82DF else if i == 0xB then 0x02DA else
    if i == 0xC then 0x82CB else if i == 0xD then 0x02CE else if i == 0xE then 0x02C4 else 0x82C1
  }

  function RowE(i: bv8): bv16
  {
    if i == 0x0 then 0x8243 else if i == 0x1 then 0x0246 else if i == 0x2 then 0x024C else if i == 0x3 then 0x8249 else
    if i == 0x4 then 0x0258 else if i == 0x5 then 0x825D else if i == 0x6 then 0x8257 else if i == 0x7 then 0x0252 else
    if i == 0x8 then 0x0270 else if i == 0x9 then 0x8275 else if i == 0xA then 0x827F else if i == 0xB then 0x027A else
    if i == 0xC then 0x826B else if i == 0xD then 0x026E else if i == 0xE then 0x0264 else 0x8261
  }

  function RowF(i: bv8): bv16
  {
    if i == 0x0 then 0x0220 else if i == 0x1 then 0x8225 else if i == 0x2 then 0x822F else if i == 0x3 then 0x022A else
    if i == 0x4 then 0x823B else if i == 0x5 then 0x023E else if i == 0x6 then 0x0234 else if i == 0x7 then 0x8231 else
    if i == 0x8 then 0x8213 else if i == 0x9 then 0x0216 else if i == 0xA then 0x021C else if i == 0xB then 0x8219 else
    if i == 0xC then 0x0208 else if i == 0xD then 0x820D else if i == 0xE then 0x8207 else 0x0202
  }

  function CrcMask(i: bv8): bv16
  {
    if i >> 4 == 0 then Row0(i & 0xF) else if i >> 4 == 1 then Row1(i & 0xF) else if i >> 4 == 2 then Row2(i & 0xF) else
    if i >> 4 == 3 then Row3(i & 0xF) else if i >> 4 == 4 then Row4(i & 0xF) else if i >> 4 == 5 then Row5(i & 0xF) else
    if i >> 4 == 6 then Row6(i & 0xF) else if i >> 4 == 7 then Row7(i & 0xF) else if i >> 4 == 8 then Row8(i & 0xF) else
    if i >> 4 == 9 then Row9(i & 0xF) else if i >> 4 == 10 then RowA(i & 0xF) else if i >> 4 == 11 then RowB(i & 0xF) else
    if i >> 4 == 12 then RowC(i & 0xF) else if i >> 4 == 13 then RowD(i & 0xF) else if i >> 4 == 14 then RowE(i & 0xF) else
    RowF(i & 0xF)
  }

  // ---------- the reference: one bit at a time ----------

  /** Addition of polynomials over two elements. */
  function Plus(s: bv16, t: bv16): bv16 { s ^ t }

  function Doubled(rem: bv16): bv16 { rem << 1 }

  predicate Top(rem: bv16) { rem & 0x8000 != 0 }

  const DIVISOR: bv16 := 0x8005

  /** Multiply the remainder by x; reduce when a one falls out. */
  function ShiftBit(rem: bv16): bv16
  {
    if Top(rem) then Plus(Doubled(rem), DIVISOR) else Doubled(rem)
  }

  /** A byte in the high half. */
  function AtTop(b: bv8): bv16 { (b as bv16) << 8 }

  function ShiftFour(rem: bv16): bv16 { ShiftBit(ShiftBit(ShiftBit(ShiftBit(rem)))) }

  function ShiftByte(rem: bv16): bv16 { ShiftFour(ShiftFour(rem)) }

  lemma Row0IsShift(i: bv8)
    requires i < 16
    ensures Row0(i) == ShiftByte(AtTop(0x00 | i))
  {
  }

  lemma Row1IsShift(i: bv8)
    requires i < 16
    ensures Row1(i) == ShiftByte(AtTop(0x10 | i))
  {
  }

  lemma Row2IsShift(i: bv8)
    requires i < 16
    ensures Row2(i) == ShiftByte(AtTop(0x20 | i))
  {
  }

  lemma Row3IsShift(i: bv8)
    requires i < 16
    ensures Row3(i) == ShiftByte(AtTop(0x30 | i))
  {
  }

  lemma Row4IsShift(i: bv8)
    requires i < 16
    ensures Row4(i) == ShiftByte(AtTop(0x40 | i))
  {
  }

  lemma Row5IsShift(i: bv8)
    requires i < 16
    ensures Row5(i) == ShiftByte(AtTop(0x50 | i))
  {
  }

  lemma Row6IsShift(i: bv8)
    requires i < 16
    ensures Row6(i) == ShiftByte(AtTop(0x60 | i))
  {
  }

  lemma Row7IsShift(i: bv8)
    requires i < 16
    ensures Row7(i) == ShiftByte(AtTop(0x70 | i))
  {
  }

  lemma Row8IsShift(i: bv8)
    requires i < 16
    ensures Row8(i) == ShiftByte(AtTop(0x80 | i))
  {
  }

  lemma Row9IsShift(i: bv8)
    requires i < 16
    ensures Row9(i) == ShiftByte(AtTop(0x90 | i))
  {
  }

  lemma RowAIsShift(i: bv8)
    requires i < 16
    ensures RowA(i) == ShiftByte(AtTop(0xA0 | i))
  {
  }

  lemma RowBIsShift(i: bv8)
    requires i < 16
    ensures RowB(i) == ShiftByte(AtTop(0xB0 | i))
  {
  }

  lemma RowCIsShift(i: bv8)
    requires i < 16
    ensures RowC(i) == ShiftByte(AtTop(0xC0 | i))
  {
  }

  lemma RowDIsShift(i: bv8)
    requires i < 16
    ensures RowD(i) == ShiftByte(AtTop(0xD0 | i))
  {
  }

  lemma RowEIsShift(i: bv8)
    requires i < 16
    ensures RowE(i) == ShiftByte(AtTop(0xE0 | i))
  {
  }

  lemma RowFIsShift(i: bv8)
    requires i < 16
    ensures RowF(i) == ShiftByte(AtTop(0xF0 | i))
  {
  }

  lemma TableIsShift(i: bv8)
    ensures CrcMask(i) == ShiftByte(AtTop(i))
  {
    hide Row0, Row1, Row2, Row3, Row4, Row5, Row6, Row7, Row8, Row9, RowA, RowB, RowC, RowD, RowE, RowF;
    hide ShiftByte, AtTop;
    if i >> 4 == 0 {
      Row0IsShift(i & 0xF);
    } else if i >> 4 == 1 {
      Row1IsShift(i & 0xF);
    } else if i >> 4 == 2 {
      Row2IsShift(i & 0xF);
    } else if i >> 4 == 3 {
      Row3IsShift(i & 0xF);
    } else if i >> 4 == 4 {
      Row4IsShift(i & 0xF);
    } else if i >> 4 == 5 {
      Row5IsShift(i & 0xF);
    } else if i >> 4 == 6 {
      Row6IsShift(i & 0xF);
    } else if i >> 4 == 7 {
      Row7IsShift(i & 0xF);
    } else if i >> 4 == 8 {
      Row8IsShift(i & 0xF);
    } else if i >> 4 == 9 {
      Row9IsShift(i & 0xF);
    } else if i >> 4 == 10 {
      RowAIsShift(i & 0xF);
    } else if i >> 4 == 11 {
      RowBIsShift(i & 0xF);
    } else if i >> 4 == 12 {
      RowCIsShift(i & 0xF);
    } else if i >> 4 == 13 {
      RowDIsShift(i & 0xF);
    } else if i >> 4 == 14 {
      RowEIsShift(i & 0xF);
    } else {
      RowFIsShift(i & 0xF);
    }
  }

  /** Bring the next message bit in at the top. */
  function BitStep(rem: bv16, bit: bool): bv16
  {
    ShiftBit(if bit then Plus(rem, 0x8000) else rem)
  }

  function BitCrc(bits: seq<bool>): bv16
  {
    if bits == [] then 0 else BitStep(BitCrc(bits[..|bits| - 1]), bits[|bits| - 1])
  }

  function BitsOfByte(b: bv8): (r: seq<bool>)
    ensures |r| == 8
  {
    [b & 0x80 != 0, b & 0x40 != 0, b & 0x20 != 0, b & 0x10 != 0,
     b & 0x08 != 0, b & 0x04 != 0, b & 0x02 != 0, b & 0x01 != 0]
  }

  function BitsOf(data: seq<bv8>): (r: seq<bool>)
    ensures |r| == 8 * |data|
  {
    if data == [] then [] else BitsOf(data[..|data| - 1]) + BitsOfByte(data[|data| - 1])
  }

  // ---------- polynomials over two elements ----------

  /** high * x^16 + low, the high coefficients first. */
  datatype Poly = Poly(high: seq<bool>, low: bv16)

  /** q * (x^16 + x^15 + x^2 + 1), by Horner's rule: multiply by x, then add the divisor for a one. */
  function TimesDivisor(q: seq<bool>): (p: Poly)
    ensures |p.high| == |q|
  {
    if q == [] then Poly([], 0) else
      var n := |q| - 1;
      var p := TimesDivisor(q[..n]);
      if q[n] then Poly(p.high + [!Top(p.low)], Plus(Doubled(p.low), DIVISOR))
      else Poly(p.high + [Top(p.low)], Doubled(p.low))
  }

  function Quotient(bits: seq<bool>): (q: seq<bool>)
    ensures |q| == |bits|
  {
    if bits == [] then [] else
      var n := |bits| - 1;
      Quotient(bits[..n]) + [Top(BitCrc(bits[..n])) != bits[n]]
  }

  lemma FlipTop(rem: bv16)
    ensures Top(Plus(rem, 0x8000)) == !Top(rem)
    ensures Doubled(Plus(rem, 0x8000)) == Doubled(rem)
  {
  }

  lemma StepReduces(rem: bv16, bit: bool)
    ensures BitStep(rem, bit) == if Top(rem) != bit then Plus(Doubled(rem), DIVISOR) else Doubled(rem)
  {
    FlipTop(rem);
    hide Top, Plus, Doubled;
  }

  lemma DivisorStep(q: seq<bool>, c: bool)
    ensures var p := TimesDivisor(q);
      TimesDivisor(q + [c]) == if c then Poly(p.high + [!Top(p.low)], Plus(Doubled(p.low), DIVISOR))
                               else Poly(p.high + [Top(p.low)], Doubled(p.low))
  {
    hide Top, Plus, Doubled;
    assert (q + [c])[..|q|] == q;
  }

  lemma MessageStep(bits: seq<bool>, b: bool)
    ensures BitCrc(bits + [b]) == BitStep(BitCrc(bits), b)
    ensures Quotient(bits + [b]) == Quotient(bits) + [Top(BitCrc(bits)) != b]
  {
    hide BitStep, Top;
    assert (bits + [b])[..|bits|] == bits;
  }

  /** message * x^16 = quotient * divisor + checksum, for messages of any length. */
  lemma {:induction false} CrcIsRemainder(bits: seq<bool>)
    ensures TimesDivisor(Quotient(bits)) == Poly(bits, BitCrc(bits))
    decreases |bits|
  {
    if bits != [] {
      hide BitStep, BitCrc, Quotient, Top, Plus, Doubled, TimesDivisor;
      var prefix, b := bits[..|bits| - 1], bits[|bits| - 1];
      assert prefix + [b] == bits;
      CrcIsRemainder(prefix);
      MessageStep(prefix, b);
      StepReduces(BitCrc(prefix), b);
      DivisorStep(Quotient(prefix), Top(BitCrc(prefix)) != b);
    }
  }

  /** Quotient and remainder are the only ones with that property. */
  lemma RemainderIsUnique(q: seq<bool>, bits: seq<bool>, rem: bv16)
    requires TimesDivisor(q) == Poly(bits, rem)
    ensures q == Quotient(bits) && rem == BitCrc(bits)
  {
    CrcIsRemainder(bits);
    SameHighSameQuotient(q, Quotient(bits));
  }

  lemma {:induction false} SameHighSameQuotient(p: seq<bool>, q: seq<bool>)
    requires TimesDivisor(p).high == TimesDivisor(q).high
    ensures p == q
    decreases |p|
  {
    hide Top, Plus, Doubled, TimesDivisor;
    assert |p| == |TimesDivisor(p).high| == |q|;
    if p != [] {
      var n := |p| - 1;
      DivisorStep(p[..n], p[n]);
      DivisorStep(q[..n], q[n]);
      assert p[..n] + [p[n]] == p && q[..n] + [q[n]] == q;
      assert TimesDivisor(p).high[..n] == TimesDivisor(p[..n]).high;
      assert TimesDivisor(q).high[..n] == TimesDivisor(q[..n]).high;
      SameHighSameQuotient(p[..n], q[..n]);
      assert TimesDivisor(p).high[n] == TimesDivisor(q).high[n];
    }
  }

  // ---------- the shift register is linear ----------

  lemma TopDoubledLinear(s: bv16, t: bv16)
    ensures Top(Plus(s, t)) == (Top(s) != Top(t))
    ensures Doubled(Plus(s, t)) == Plus(Doubled(s), Doubled(t))
  {
    hide *;
    TopLinear(s, t);
    DoubledLinear(s, t);
  }

  lemma TopLinear(s: bv16, t: bv16)
    ensures Top(Plus(s, t)) == (Top(s) != Top(t))
  {
  }

  lemma DoubledLinear(s: bv16, t: bv16)
    ensures Doubled(Plus(s, t)) == Plus(Doubled(s), Doubled(t))
  {
  }

  lemma XorCancels(x: bv16, y: bv16, k: bv16, a: bv16, b: bv16)
    requires a == x ^ k && b == y ^ k
    ensures a ^ b == x ^ y
  {
  }

  lemma XorCommutes(x: bv16, y: bv16, k: bv16, a: bv16, b: bv16)
    requires a == x ^ y && b == x ^ k
    ensures a ^ k == b ^ y
  {
  }

  lemma XorAssociates(x: bv16, y: bv16, k: bv16, a: bv16, c: bv16)
    requires a == x ^ y && c == y ^ k
    ensures a ^ k == x ^ c
  {
  }

  lemma PlusCancels(x: bv16, y: bv16, k: bv16)
    ensures Plus(Plus(x, k), Plus(y, k)) == Plus(x, y)
  {
    XorCancels(x, y, k, Plus(x, k), Plus(y, k));
  }

  lemma PlusCommutes(x: bv16, y: bv16, k: bv16)
    ensures Plus(Plus(x, y), k) == Plus(Plus(x, k), y)
  {
    XorCommutes(x, y, k, Plus(x, y), Plus(x, k));
  }

  lemma PlusAssociates(x: bv16, y: bv16, k: bv16)
    ensures Plus(Plus(x, y), k) == Plus(x, Plus(y, k))
  {
    XorAssociates(x, y, k, Plus(x, y), Plus(y, k));
  }

  lemma ShiftBitLinear(s: bv16, t: bv16)
    ensures ShiftBit(Plus(s, t)) == Plus(ShiftBit(s), ShiftBit(t))
  {
    TopDoubledLinear(s, t);
    PlusCancels(Doubled(s), Doubled(t), DIVISOR);
    PlusCommutes(Doubled(s), Doubled(t), DIVISOR);
    PlusAssociates(Doubled(s), Doubled(t), DIVISOR);
    hide Plus, Doubled, Top;
  }

  lemma ShiftFourLinear(s: bv16, t: bv16)
    ensures ShiftFour(Plus(s, t)) == Plus(ShiftFour(s), ShiftFour(t))
  {
    hide ShiftBit, Plus;
    var s1, t1 := ShiftBit(s), ShiftBit(t);
    var s2, t2 := ShiftBit(s1), ShiftBit(t1);
    ShiftBitLinear(s, t);
    ShiftBitLinear(s1, t1);
    ShiftBitLinear(s2, t2);
    ShiftBitLinear(ShiftBit(s2), ShiftBit(t2));
  }

  lemma ShiftByteLinear(s: bv16, t: bv16)
    ensures ShiftByte(Plus(s, t)) == Plus(ShiftByte(s), ShiftByte(t))
  {
    hide ShiftFour, Plus;
    ShiftFourLinear(s, t);
    ShiftFourLinear(ShiftFour(s), ShiftFour(t));
  }

  lemma PlusZero(s: bv16, t: bv16)
    ensures Plus(s, t) == 0 <==> s == t
  {
    XorZero16(s, t);
  }

  lemma XorZero16(s: bv16, t: bv16)
    ensures s ^ t == 0 <==> s == t
  {
  }

  lemma ShiftBitZero(s: bv16)
    ensures ShiftBit(s) == 0 <==> s == 0
  {
  }

  lemma ShiftByteZero(s: bv16)
    ensures ShiftByte(s) == 0 <==> s == 0
  {
    hide ShiftBit;
    var s1 := ShiftBit(s);
    var s2 := ShiftBit(s1);
    var s3 := ShiftBit(s2);
    ShiftBitZero(s);
    ShiftBitZero(s1);
    ShiftBitZero(s2);
    ShiftBitZero(s3);
    var s4 := ShiftBit(s3);
    var s5 := ShiftBit(s4);
    var s6 := ShiftBit(s5);
    ShiftBitZero(s4);
    ShiftBitZero(s5);
    ShiftBitZero(s6);
    ShiftBitZero(ShiftBit(s6));
  }

  lemma ShiftByteInjective(s: bv16, t: bv16)
    requires ShiftByte(s) == ShiftByte(t)
    ensures s == t
  {
    hide ShiftByte, Plus;
    ShiftByteLinear(s, t);
    PlusZero(ShiftByte(s), ShiftByte(t));
    ShiftByteZero(Plus(s, t));
    PlusZero(s, t);
  }

  // ---------- table driven = bit by bit ----------

  /** The table index: the high byte of the sum against the next byte. */
  function Index(sum: bv16, b: bv8): bv8 { (sum >> 8) as bv8 ^ b }

  function LowUp(sum: bv16): bv16 { sum << 8 }

  function TableStep(sum: bv16, b: bv8): bv16
  {
    Plus(LowUp(sum), CrcMask(Index(sum, b)))
  }

  /** The remainder with the next byte brought in at the top. */
  function WithByte(sum: bv16, b: bv8): bv16 { Plus(sum, AtTop(b)) }

  lemma LowByteShifts(sum: bv16)
    ensures ShiftByte(sum & 0xFF) == LowUp(sum)
  {
  }

  lemma HighAndLow(sum: bv16)
    ensures sum == Plus(sum & 0xFF, AtTop((sum >> 8) as bv8))
  {
  }

  lemma AtTopLinear(a: bv8, b: bv8)
    ensures AtTop(a ^ b) == Plus(AtTop(a), AtTop(b))
  {
  }

  lemma SplitInput(sum: bv16, b: bv8)
    ensures WithByte(sum, b) == Plus(sum & 0xFF, AtTop(Index(sum, b)))
  {
    hide Plus, AtTop;
    var high := (sum >> 8) as bv8;
    HighAndLow(sum);
    AtTopLinear(high, b);
    PlusAssociates(sum & 0xFF, AtTop(high), AtTop(b));
  }

  lemma TableStepIsShift(sum: bv16, b: bv8)
    ensures TableStep(sum, b) == ShiftByte(WithByte(sum, b))
  {
    hide CrcMask, ShiftByte, WithByte, Plus, AtTop, Index, LowUp;
    TableIsShift(Index(sum, b));
    SplitInput(sum, b);
    ShiftByteLinear(sum & 0xFF, AtTop(Index(sum, b)));
    LowByteShifts(sum);
  }

  function FourBits(rem: bv16, b: bv8): bv16
  {
    BitStep(BitStep(BitStep(BitStep(rem, b & 0x80 != 0), b & 0x40 != 0), b & 0x20 != 0), b & 0x10 != 0)
  }

  function EightBits(rem: bv16, b: bv8): bv16
  {
    BitStep(BitStep(BitStep(BitStep(FourBits(rem, b), b & 0x08 != 0), b & 0x04 != 0), b & 0x02 != 0), b & 0x01 != 0)
  }

  /** Bits still to come may be brought in together with the next one and shifted along. */
  lemma OneBit(rem: bv16, v: bv16)
    ensures ShiftBit(Plus(rem, v)) == Plus(BitStep(rem, Top(v)), Doubled(v))
  {
    TopDoubledLinear(rem, v);
    FlipTop(rem);
    PlusCancels(Doubled(rem), Doubled(v), DIVISOR);
    PlusCommutes(Doubled(rem), Doubled(v), DIVISOR);
    PlusAssociates(Doubled(rem), Doubled(v), DIVISOR);
    hide Plus, Doubled, Top;
  }

  lemma BitsInPlace(b: bv8)
    ensures Top(AtTop(b)) == (b & 0x80 != 0)
    ensures Top(Doubled(AtTop(b))) == (b & 0x40 != 0)
    ensures Top(Doubled(Doubled(AtTop(b)))) == (b & 0x20 != 0)
    ensures Top(Doubled(Doubled(Doubled(AtTop(b))))) == (b & 0x10 != 0)
    ensures Doubled(Doubled(Doubled(Doubled(AtTop(b))))) == AtTop(b << 4)
  {
  }

  lemma FourBitsIsShift(rem: bv16, b: bv8)
    ensures ShiftFour(WithByte(rem, b)) == WithByte(FourBits(rem, b), b << 4)
  {
    hide ShiftBit, BitStep, Plus, Top, Doubled, AtTop;
    var v := AtTop(b);
    BitsInPlace(b);
    var r1 := BitStep(rem, Top(v));
    var r2 := BitStep(r1, Top(Doubled(v)));
    var r3 := BitStep(r2, Top(Doubled(Doubled(v))));
    OneBit(rem, v);
    OneBit(r1, Doubled(v));
    OneBit(r2, Doubled(Doubled(v)));
    OneBit(r3, Doubled(Doubled(Doubled(v))));
  }

  lemma LowNibble(b: bv8)
    ensures (b << 4) & 0x80 != 0 <==> b & 0x08 != 0
    ensures (b << 4) & 0x40 != 0 <==> b & 0x04 != 0
    ensures (b << 4) & 0x20 != 0 <==> b & 0x02 != 0
    ensures (b << 4) & 0x10 != 0 <==> b & 0x01 != 0
  {
  }

  lemma EightInFours(rem: bv16, b: bv8)
    ensures EightBits(rem, b) == FourBits(FourBits(rem, b), b << 4)
  {
    hide BitStep;
    LowNibble(b);
  }

  lemma NothingLeft(rem: bv16, b: bv8)
    ensures WithByte(rem, b << 4 << 4) == rem
  {
  }

  lemma EightBitsIsShift(rem: bv16, b: bv8)
    ensures EightBits(rem, b) == ShiftByte(WithByte(rem, b))
  {
    hide ShiftFour, WithByte, FourBits, EightBits;
    FourBitsIsShift(rem, b);
    FourBitsIsShift(FourBits(rem, b), b << 4);
    EightInFours(rem, b);
    NothingLeft(FourBits(FourBits(rem, b), b << 4), b);
  }

  /** The checksum of any data, byte by byte. */
  function Crc(data: seq<bv8>): bv16
  {
    if data == [] then 0 else TableStep(Crc(data[..|data| - 1]), data[|data| - 1])
  }

  lemma BitCrcFour(bits: seq<bool>, byte: seq<bool>, k: nat)
    requires k + 4 <= |byte|
    ensures BitCrc(bits + byte[..k + 4])
         == BitStep(BitStep(BitStep(BitStep(BitCrc(bits + byte[..k]), byte[k]), byte[k + 1]), byte[k + 2]), byte[k + 3])
  {
    hide BitStep, BitCrc;
    BitCrcBits(bits, byte, k + 4);
    BitCrcBits(bits, byte, k + 3);
    BitCrcBits(bits, byte, k + 2);
    BitCrcBits(bits, byte, k + 1);
  }

  lemma BitCrcByte(bits: seq<bool>, b: bv8)
    ensures BitCrc(bits + BitsOfByte(b)) == EightBits(BitCrc(bits), b)
  {
    hide BitStep, BitCrc;
    var byte := BitsOfByte(b);
    BitCrcFour(bits, byte, 0);
    BitCrcFour(bits, byte, 4);
    assert bits + byte[..0] == bits && byte[..8] == byte;
  }

  lemma BitCrcBits(bits: seq<bool>, byte: seq<bool>, k: nat)
    requires 0 < k <= |byte|
    ensures BitCrc(bits + byte[..k]) == BitStep(BitCrc(bits + byte[..k - 1]), byte[k - 1])
  {
    hide BitStep;
    assert (bits + byte[..k])[..|bits| + k - 1] == bits + byte[..k - 1];
  }

  /** The table form is the bitwise division, for data of any length. */
  lemma {:induction false} CrcIsBitwise(data: seq<bv8>)
    ensures Crc(data) == BitCrc(BitsOf(data))
    decreases |data|
  {
    if data != [] {
      hide TableStep, EightBits, BitsOfByte, ShiftByte;
      var n := |data| - 1;
      CrcIsBitwise(data[..n]);
      BitCrcByte(BitsOf(data[..n]), data[n]);
      EightBitsIsShift(Crc(data[..n]), data[n]);
      TableStepIsShift(Crc(data[..n]), data[n]);
    }
  }

  /** The checksum loop over the first size bytes of a frame. */
  method Crc16Checksum(data: array<bv8>, size: nat) returns (sum: bv16)
    requires size <= data.Length
    ensures sum == Crc(data[..size])
    ensures sum == BitCrc(BitsOf(data[..size]))
  {
    hide TableStep;
    sum := 0;
    for i := 0 to size
      invariant sum == Crc(data[..i])
    {
      sum := TableStep(sum, data[i]);
      assert data[..i + 1][..i] == data[..i];
    }
    CrcIsBitwise(data[..size]);
  }

  // ---------- what the checksum detects ----------

  function XorBytes(a: seq<bv8>, b: seq<bv8>): (r: seq<bv8>)
    requires |a| == |b|
    ensures |r| == |a|
  {
    seq(|a|, i requires 0 <= i < |a| => a[i] ^ b[i])
  }

  lemma WithByteLinear(s: bv16, t: bv16, a: bv8, b: bv8)
    ensures WithByte(Plus(s, t), a ^ b) == Plus(WithByte(s, a), WithByte(t, b))
  {
  }

  lemma StepLinear(s: bv16, t: bv16, a: bv8, b: bv8)
    ensures TableStep(Plus(s, t), a ^ b) == Plus(TableStep(s, a), TableStep(t, b))
  {
    hide TableStep, ShiftByte, WithByte, Plus;
    TableStepIsShift(Plus(s, t), a ^ b);
    TableStepIsShift(s, a);
    TableStepIsShift(t, b);
    ShiftByteLinear(WithByte(s, a), WithByte(t, b));
    WithByteLinear(s, t, a, b);
  }

  /** The checksum is linear over exclusive or. */
  lemma {:induction false} CrcLinear(a: seq<bv8>, b: seq<bv8>)
    requires |a| == |b|
    ensures Crc(XorBytes(a, b)) == Plus(Crc(a), Crc(b))
    decreases |a|
  {
    if a != [] {
      hide TableStep, Plus, XorBytes;
      var n := |a| - 1;
      XorBytesLast(a, b, n);
      CrcLinear(a[..n], b[..n]);
      StepLinear(Crc(a[..n]), Crc(b[..n]), a[n], b[n]);
    }
  }

  lemma XorBytesLast(a: seq<bv8>, b: seq<bv8>, n: nat)
    requires |a| == |b| == n + 1
    ensures |XorBytes(a, b)| == n + 1
    ensures XorBytes(a, b)[..n] == XorBytes(a[..n], b[..n]) && XorBytes(a, b)[n] == a[n] ^ b[n]
  {
  }

  function BigEndian(hi: bv8, lo: bv8): bv16 { AtTop(hi) | (lo as bv16) }

  lemma TrailerLaws(s: bv16, hi: bv8, lo: bv8)
    ensures WithByte(s, lo) == 0 <==> s == AtTop(lo)
    ensures WithByte(BigEndian(hi, lo), hi) == (lo as bv16)
    ensures WithByte(s, hi) == (lo as bv16) <==> s == BigEndian(hi, lo)
  {
  }

  lemma SmallShifts(lo: bv8)
    ensures ShiftByte(lo as bv16) == AtTop(lo)
  {
  }

  lemma TwoStepsZero(s: bv16, hi: bv8, lo: bv8)
    ensures TableStep(TableStep(s, hi), lo) == 0 <==> s == BigEndian(hi, lo)
  {
    hide TableStep, ShiftByte, WithByte, AtTop, BigEndian;
    var first := ShiftByte(WithByte(s, hi));
    TableStepIsShift(s, hi);
    TableStepIsShift(first, lo);
    ShiftByteZero(WithByte(first, lo));
    TrailerLaws(first, hi, lo);
    TrailerLaws(s, hi, lo);
    SmallShifts(lo);
    if first == AtTop(lo) {
      ShiftByteInjective(WithByte(s, hi), lo as bv16);
    }
  }

  /** A frame checks out exactly when it ends with the big-endian checksum of the rest. */
  lemma ZeroExactlyWithTrailer(rest: seq<bv8>, hi: bv8, lo: bv8)
    ensures Crc(rest + [hi, lo]) == 0 <==> Crc(rest) == BigEndian(hi, lo)
  {
    hide TableStep;
    var all := rest + [hi, lo];
    assert all[..|all| - 1] == rest + [hi];
    assert (rest + [hi])[..|rest|] == rest;
    TwoStepsZero(Crc(rest), hi, lo);
  }

  lemma NoBits()
    ensures (0 as bv8) << 4 << 4 == 0
  {
  }

  lemma ZeroByteKeeps(s: bv16)
    ensures TableStep(s, 0) == 0 <==> s == 0
  {
    hide TableStep, ShiftByte, WithByte;
    TableStepIsShift(s, 0);
    ShiftByteZero(s);
    assert WithByte(s, 0) == s by { NothingLeft(s, 0); NoBits(); }
  }

  lemma {:induction false} CrcOfZeros(d: seq<bv8>)
    requires forall i :: 0 <= i < |d| ==> d[i] == 0
    ensures Crc(d) == 0
    decreases |d|
  {
    hide TableStep;
    if d != [] {
      CrcOfZeros(d[..|d| - 1]);
      ZeroByteKeeps(0);
    }
  }

  /** A difference of two neighbouring bytes survives any number of equal bytes after it. */
  lemma {:induction false} NeighboursVisible(d: seq<bv8>, k: nat)
    requires k + 2 <= |d| && (d[k] != 0 || d[k + 1] != 0)
    requires forall i :: 0 <= i < |d| && i != k && i != k + 1 ==> d[i] == 0
    ensures Crc(d) != 0
    decreases |d|
  {
    hide TableStep;
    var n := |d| - 1;
    if k + 1 < n {
      NeighboursVisible(d[..n], k);
      ZeroByteKeeps(Crc(d[..n]));
    } else {
      CrcOfZeros(d[..k]);
      TwoStepsZero(0, d[k], d[k + 1]);
      assert d[..n][..k] == d[..k];
      BothZero(d[k], d[k + 1]);
    }
  }

  lemma BothZero(hi: bv8, lo: bv8)
    ensures BigEndian(hi, lo) == 0 <==> hi == 0 && lo == 0
  {
  }

  /** Any two equally long inputs that differ only within two adjacent bytes have different checksums. */
  lemma AdjacentBytesDetected(a: seq<bv8>, b: seq<bv8>, k: nat)
    requires |a| == |b| && k + 2 <= |a| && (a[k] != b[k] || a[k + 1] != b[k + 1])
    requires forall i :: 0 <= i < |a| && i != k && i != k + 1 ==> a[i] == b[i]
    ensures Crc(a) != Crc(b)
  {
    var d := XorBytes(a, b);
    forall i | 0 <= i < |a| ensures d[i] == 0 <==> a[i] == b[i] {
      XorZero(a[i], b[i]);
    }
    NeighboursVisible(d, k);
    CrcLinear(a, b);
    PlusZero(Crc(a), Crc(b));
  }

  lemma XorZero(a: bv8, b: bv8)
    ensures a ^ b == 0 <==> a == b
  {
  }
}

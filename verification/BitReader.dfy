/**
  The bit reader of the HCA decoder. A read loads the bytes that span it into a window
  of one to four bytes, masks off what is before it and shifts out what is after it.
  Masks are 2^m - 1, so masking is a remainder and shifting right a division.
 */
module BitReader {
  import opened Bytes
  import opened Common

  // ---------- what a read should give ----------

  function BitAt(data: seq<byte>, pos: nat): (b: nat)
    requires pos < 8 * |data|
    ensures b < 2
  {
    data[pos / 8] / Pow2(7 - pos % 8) % 2
  }

  /** The bits [pos, pos + n) as a big-endian number. */
  function Value(data: seq<byte>, pos: nat, n: nat): nat
    requires pos + n <= 8 * |data|
  {
    if n == 0 then 0 else 2 * Value(data, pos, n - 1) + BitAt(data, pos + n - 1)
  }

  // ---------- the windowed read ----------

  /** A read gives a number, or panics on a negative shift count. */
  datatype Peeked = Bits(v: nat) | Panic

  /** The first k bytes from byte i on, big-endian. */
  function Window(data: seq<byte>, i: nat, k: nat): nat
    requires i + k <= |data|
  {
    if k == 0 then 0 else 256 * Window(data, i, k - 1) + data[i + k - 1]
  }

  /** What the mask 2^m - 1 leaves. */
  function Masked(v: nat, m: nat): nat { v % Pow2(m) }

  function Div(a: nat, b: nat): nat
    requires b > 0
  {
    a / b
  }

  function ShiftedRight(v: nat, m: nat): nat { Div(v, Pow2(m)) }

  function Extract(v: nat, width: nat, rem: nat, n: nat): Peeked
    requires rem < 8 <= width
  {
    if width < rem + n then Panic else Bits(ShiftedRight(Masked(v, width - rem), width - rem - n))
  }

  /** The number of bytes the code chooses to load. */
  function WindowBytes(offset: nat, left: nat): (k: nat)
  {
    if left >= 32 && offset >= 25 then 4
    else if left >= 24 && offset >= 17 then 3
    else if left >= 16 && offset >= 9 then 2
    else 1
  }

  function Peek(data: seq<byte>, size: nat, bit: nat, n: nat): Peeked
    requires size <= 8 * |data|
  {
    if bit + n > size then Bits(0)
    else if n == 0 then Bits(0)
    else
      var rem := bit % 8;
      var k := WindowBytes(n + rem, size - bit);
      Extract(Window(data, bit / 8, k), 8 * k, rem, n)
  }

  /** The reads whose window fits: within one byte, or with all their bytes left as whole bytes. */
  predicate WindowFits(size: nat, bit: nat, n: nat)
    requires bit <= size
  {
    var offset := n + bit % 8;
    offset <= 8 || (offset <= 32 && size - bit >= 8 * ((offset + 7) / 8))
  }

  // ---------- numbers made of two parts ----------

  lemma QuotientIs(q: nat, w: nat, y: nat)
    requires y < w
    ensures (q * w + y) / w == q && (q * w + y) % w == y
  {
    var x := q * w + y;
    var d, m := x / w, x % w;
    assert d * w + m == q * w + y;
    if d < q {
      LargerMultiple(d, q, w);
    } else if q < d {
      LargerMultiple(q, d, w);
    }
  }

  lemma {:induction false} LargerMultiple(a: nat, b: nat, w: nat)
    requires a < b
    ensures a * w + w <= b * w
    decreases b
  {
    assert b * w == (b - 1) * w + w;
    if a < b - 1 {
      LargerMultiple(a, b - 1, w);
    }
  }

  lemma {:induction false} ValueBound(data: seq<byte>, pos: nat, n: nat)
    requires pos + n <= 8 * |data|
    ensures Value(data, pos, n) < Pow2(n)
  {
    if n > 0 {
      ValueBound(data, pos, n - 1);
    }
  }

  /** A number with n more bits below it. */
  function Join(high: nat, n: nat, low: nat): nat { high * Pow2(n) + low }

  lemma DoubleSplit(a: nat, b: nat, p: nat)
    ensures 2 * (a * p + b) == a * (2 * p) + 2 * b
  {
  }

  /** Reads join: the bits of two successive reads are the bits of one long read. */
  lemma {:induction false} ValueJoin(data: seq<byte>, pos: nat, m: nat, n: nat)
    requires pos + m + n <= 8 * |data|
    ensures Value(data, pos, m + n) == Join(Value(data, pos, m), n, Value(data, pos + m, n))
    decreases n
  {
    if n > 0 {
      ValueJoin(data, pos, m, n - 1);
      DoubleSplit(Value(data, pos, m), Value(data, pos + m, n - 1), Pow2(n - 1));
    }
  }

  lemma HalveQuotient(x: nat, p: nat)
    requires p > 0
    ensures x / p == 2 * (x / (2 * p)) + x / p % 2
  {
    var q := x / p;
    var h, b, y := q / 2, q % 2, x % p;
    assert x == q * p + y;
    assert q == 2 * h + b;
    SplitProduct(h, b, p, q);
    QuotientIs(h, 2 * p, b * p + y);
  }

  lemma SplitProduct(h: nat, b: nat, p: nat, q: nat)
    requires q == 2 * h + b && b < 2
    ensures q * p == h * (2 * p) + b * p && b * p <= p
  {
  }

  lemma {:induction false} LeadingBits(data: seq<byte>, i: nat, j: nat)
    requires i < |data| && j <= 8
    ensures Value(data, 8 * i, j) == data[i] / Pow2(8 - j)
  {
    if j == 0 {
      assert Pow2(8) == 256;
    } else {
      LeadingBits(data, i, j - 1);
      assert (8 * i + (j - 1)) / 8 == i && (8 * i + (j - 1)) % 8 == j - 1;
      HalveQuotient(data[i], Pow2(8 - j));
      assert Pow2(8 - (j - 1)) == 2 * Pow2(8 - j);
    }
  }

  lemma ByteValue(data: seq<byte>, i: nat)
    requires i < |data|
    ensures Value(data, 8 * i, 8) == data[i]
  {
    hide Value;
    LeadingBits(data, i, 8);
    assert Pow2(0) == 1;
  }

  lemma JoinByte(high: nat, low: nat)
    ensures Join(high, 8, low) == 256 * high + low
  {
    assert Pow2(8) == 256;
    hide Pow2;
  }

  lemma {:induction false} WindowIsValue(data: seq<byte>, i: nat, k: nat)
    requires i + k <= |data|
    ensures Window(data, i, k) == Value(data, 8 * i, 8 * k)
  {
    if k == 0 {
      assert Value(data, 8 * i, 0) == 0;
    } else {
      hide Value, Join, Pow2;
      WindowIsValue(data, i, k - 1);
      ValueJoin(data, 8 * i, 8 * (k - 1), 8);
      ByteValue(data, i + k - 1);
      JoinByte(Window(data, i, k - 1), data[i + k - 1]);
      assert 8 * i + 8 * (k - 1) == 8 * (i + k - 1) && 8 * (k - 1) + 8 == 8 * k;
    }
  }

  /** Masking and shifting the window leaves exactly the bits asked for. */
  lemma ExtractIsValue(data: seq<byte>, i: nat, k: nat, rem: nat, n: nat)
    requires i + k <= |data| && rem < 8 <= 8 * k && rem + n <= 8 * k
    ensures Extract(Window(data, i, k), 8 * k, rem, n) == Bits(Value(data, 8 * i + rem, n))
  {
    hide Value, Window, Pow2, Masked, ShiftedRight, Join;
    var tail := 8 * k - rem - n;
    var pos := 8 * i;
    WindowIsValue(data, i, k);
    ValueJoin(data, pos, rem, n + tail);
    ValueJoin(data, pos + rem, n, tail);
    ValueBound(data, pos + rem, n + tail);
    ValueBound(data, pos + rem + n, tail);
    MaskedIs(n + tail, Value(data, pos, rem), Value(data, pos + rem, n + tail));
    ShiftedIs(tail, Value(data, pos + rem, n), Value(data, pos + rem + n, tail));
  }

  lemma MaskedIs(m: nat, q: nat, y: nat)
    requires y < Pow2(m)
    ensures Masked(Join(q, m, y), m) == y
  {
    hide Pow2;
    QuotientIs(q, Pow2(m), y);
  }

  lemma ShiftedIs(m: nat, q: nat, y: nat)
    requires y < Pow2(m)
    ensures ShiftedRight(Join(q, m, y), m) == q
  {
    hide Pow2;
    QuotientIs(q, Pow2(m), y);
  }

  // ---------- exactly when the windowed read is right ----------

  /**
    A non-empty read inside the stream gives the big-endian value of its bits exactly when
    its window fits; otherwise its shift count is negative and the decoder panics.
   */
  lemma PeekExact(data: seq<byte>, size: nat, bit: nat, n: nat)
    requires size <= 8 * |data| && 0 < n && bit + n <= size
    ensures WindowFits(size, bit, n) ==> Peek(data, size, bit, n) == Bits(Value(data, bit, n))
    ensures !WindowFits(size, bit, n) ==> Peek(data, size, bit, n) == Panic
  {
    hide Value, Window, Pow2, Masked, ShiftedRight;
    var rem := bit % 8;
    var k := WindowBytes(n + rem, size - bit);
    assert bit == 8 * (bit / 8) + rem;
    if WindowFits(size, bit, n) {
      ExtractIsValue(data, bit / 8, k, rem, n);
    }
  }

  /** Header and frame fields that start on a byte boundary are read exactly, up to 32 bits. */
  lemma AlignedPeek(data: seq<byte>, size: nat, bit: nat, n: nat)
    requires size <= 8 * |data| && size % 8 == 0 && bit % 8 == 0 && 0 < n <= 32 && bit + n <= size
    ensures Peek(data, size, bit, n) == Bits(Value(data, bit, n))
  {
    WholeBytes(size, bit, n);
    PeekExact(data, size, bit, n);
    hide *;
  }

  lemma WholeBytes(size: nat, bit: nat, n: nat)
    requires size % 8 == 0 && bit % 8 == 0 && 0 < n <= 32 && bit + n <= size
    ensures WindowFits(size, bit, n)
  {
    var left, k := size / 8 - bit / 8, (n + 7) / 8;
    assert size - bit == 8 * left && 8 * k < n + 8;
  }

  /** Code reads of up to 12 bits are exact while three whole bytes are left. */
  lemma ShortPeek(data: seq<byte>, size: nat, bit: nat, n: nat)
    requires size <= 8 * |data| && n <= 12 && bit + 24 <= size
    ensures Peek(data, size, bit, n) == Bits(Value(data, bit, n))
  {
    if n > 0 {
      PeekExact(data, size, bit, n);
    }
  }

  /** Two stream bytes do not always cover a twelve-bit read: this one panics. */
  lemma PeekPanics()
    ensures Peek([0, 0], 16, 4, 12) == Panic
  {
    assert !WindowFits(16, 4, 12);
    PeekExact([0, 0], 16, 4, 12);
  }

  // ---------- the cursor ----------

  class ClData {
    var data: seq<byte>
    var size: nat
    var bit: nat

    predicate Valid()
      reads this
    {
      size <= 8 * |data|
    }

    constructor (data: seq<byte>, size: nat)
      requires size <= |data|
      ensures Valid() && this.data == data && this.size == 8 * size && bit == 0
    {
      this.data := data;
      this.size := size * 8;
      this.bit := 0;
    }

    /** A panic leaves the cursor where it was. */
    method Read(n: nat) returns (r: Peeked)
      requires Valid()
      modifies `bit
      ensures r == Peek(data, size, old(bit), n)
      ensures bit == if r.Panic? then old(bit) else old(bit) + n
    {
      r := Peek(data, size, bit, n);
      if r.Bits? {
        bit := bit + n;
      }
    }

    method Skip(n: int)
      requires Valid() && bit + n >= 0
      modifies `bit
      ensures bit == old(bit) + n
    {
      bit := bit + n;
    }

    /** Reading m bits and then n bits is reading m + n bits. */
    method ReadTwice(m: nat, n: nat) returns (hi: Peeked, lo: Peeked)
      requires Valid() && 0 < m && 0 < n && bit + m + n <= size
      requires WindowFits(size, bit, m) && WindowFits(size, bit + m, n)
      modifies `bit
      ensures hi.Bits? && lo.Bits? && bit == old(bit) + m + n
      ensures Join(hi.v, n, lo.v) == Value(data, old(bit), m + n)
    {
      hide Value, Peek, Pow2, Join;
      PeekExact(data, size, bit, m);
      PeekExact(data, size, bit + m, n);
      ValueJoin(data, bit, m, n);
      hi := Read(m);
      lo := Read(n);
    }
  }
}

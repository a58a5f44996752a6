/**
  The byte substitution of encrypted frames. Every table the three cipher types can build
  is a permutation of the byte values that fixes 0x00 and 0xFF.
 */
module Cipher {
  import opened Bytes
  import opened Generators

  function Xor(a: byte, b: byte): byte
  {
    ((a as bv8) ^ (b as bv8)) as int
  }

  // ---------- permutations and their inverses ----------

  predicate Injective(s: seq<byte>)
  {
    forall i, j :: 0 <= i < j < |s| ==> s[i] != s[j]
  }

  /** A substitution table: each byte value exactly once, the two end values in place. */
  predicate IsSubstitution(t: seq<byte>)
  {
    |t| == 256 && Injective(t) && t[0] == 0 && t[255] == 255
  }

  ghost function Elements(s: seq<byte>): set<int>
  {
    set i | 0 <= i < |s| :: s[i]
  }

  lemma {:induction false} BoundedSize(a: set<int>, n: nat)
    requires forall v :: v in a ==> 0 <= v < n
    ensures |a| <= n
    decreases n
  {
    if n > 0 {
      BoundedSize(a - {n - 1}, n - 1);
    } else {
      assert forall v: int :: v !in a;
      assert |a| == 0;
    }
  }

  lemma {:induction false} ElementsSize(s: seq<byte>)
    requires Injective(s)
    ensures |Elements(s)| == |s|
    decreases |s|
  {
    if s == [] {
      assert Elements(s) == {};
    } else {
      var n := |s| - 1;
      ElementsSize(s[..n]);
      assert s == s[..n] + [s[n]];
      assert Elements(s) == Elements(s[..n]) + {s[n]} by {
        forall v | v in Elements(s) ensures v in Elements(s[..n]) + {s[n]} {
          var i :| 0 <= i < |s| && s[i] == v;
          if i < n { assert s[..n][i] == v; }
        }
        forall v | v in Elements(s[..n]) ensures v in Elements(s) {
          var i :| 0 <= i < n && s[..n][i] == v;
          assert s[i] == v;
        }
      }
      assert forall i :: 0 <= i < n ==> s[..n][i] != s[n];
    }
  }

  /** 256 different bytes leave no byte out. */
  lemma Surjective(s: seq<byte>, v: byte) returns (i: nat)
    requires |s| == 256 && Injective(s)
    ensures i < 256 && s[i] == v
  {
    if v in s {
      i :| 0 <= i < |s| && s[i] == v;
    } else {
      ElementsSize(s);
      BoundedSize(Elements(s) + {v}, 256);
      assert false;
    }
  }

  // ---------- keeping what is neither 0x00 nor 0xFF ----------

  /** The kept bytes of a walk, in order. */
  function Kept(walk: seq<byte>): (r: seq<byte>)
  {
    if walk == [] then [] else
      var n := |walk| - 1;
      Kept(walk[..n]) + (if walk[n] == 0 || walk[n] == 255 then [] else [walk[n]])
  }

  function TableOf(walk: seq<byte>): seq<byte> { [0] + Kept(walk) + [255] }

  lemma {:induction false} KeptElements(walk: seq<byte>)
    requires Injective(walk)
    ensures Injective(Kept(walk))
    ensures forall v :: v in Kept(walk) <==> v in walk && v != 0 && v != 255
    decreases |walk|
  {
    if walk != [] {
      var n := |walk| - 1;
      KeptElements(walk[..n]);
      assert walk == walk[..n] + [walk[n]];
      assert walk[n] !in walk[..n];
      assert forall i :: 0 <= i < |Kept(walk[..n])| ==> Kept(walk[..n])[i] in Kept(walk[..n]);
    }
  }

  /** 256 different bytes less the two end values leave 254, so the write position ends at 255. */
  lemma {:induction false} KeptSize(walk: seq<byte>)
    requires Injective(walk)
    ensures |Kept(walk)| + (if 0 in walk then 1 else 0) + (if 255 in walk then 1 else 0) == |walk|
    decreases |walk|
  {
    if walk != [] {
      var n := |walk| - 1;
      KeptSize(walk[..n]);
      assert walk == walk[..n] + [walk[n]];
    }
  }

  lemma TableIsSubstitution(walk: seq<byte>)
    requires Injective(walk) && |Kept(walk)| == 254
    ensures IsSubstitution(TableOf(walk))
  {
    KeptElements(walk);
    var kept, t := Kept(walk), TableOf(walk);
    hide Kept;
    forall i, j | 0 <= i < j < 256 ensures t[i] != t[j] {
      if 0 < i { assert t[i] == kept[i - 1] && kept[i - 1] in kept; }
      if j < 255 { assert t[j] == kept[j - 1] && kept[j - 1] in kept; }
    }
  }

  // ---------- the three tables ----------

  function IdentityTable(): seq<byte> { seq(256, i requires 0 <= i < 256 => i) }

  function MulOf(key: byte): nat { (key % 2) * 8 + 5 }

  function AddOf(key: byte): nat { key % 16 / 2 * 2 + 1 }

  /** Slot i of the sixteen values a key byte generates. */
  function Slot(key: byte, i: nat): nat { Iterate(MulOf(key), AddOf(key), key / 16, i + 1) % 16 }

  lemma SlotsDistinct(key: byte, i: nat, j: nat)
    requires i < 16 && j < 16 && i != j
    ensures Slot(key, i) != Slot(key, j)
  {
    DistinctModulo16(MulOf(key), AddOf(key), key / 16, if i < j then i + 1 else j + 1, if i < j then j + 1 else i + 1);
  }

  /** The key code shifted down by r bytes. */
  function ShiftedDown(keycode: nat, r: nat): nat
  {
    if r == 0 then keycode else ShiftedDown(keycode, r - 1) / 256
  }

  /** The code is lowered by one before its bytes are taken. */
  function Lowered(keycode: nat): nat { if keycode != 0 then keycode - 1 else keycode }

  function Seeds(kc: seq<byte>): (r: seq<byte>)
    requires |kc| == 7
    ensures |r| == 16
  {
    [kc[1], Xor(kc[1], kc[6]), Xor(kc[2], kc[3]), kc[2], Xor(kc[2], kc[1]), Xor(kc[3], kc[4]), kc[3], Xor(kc[3], kc[2]),
     Xor(kc[4], kc[5]), kc[4], Xor(kc[4], kc[3]), Xor(kc[5], kc[6]), kc[5], Xor(kc[5], kc[4]), Xor(kc[6], kc[1]), kc[6]]
  }

  function KeyBytes(keycode: nat): (kc: seq<byte>)
    ensures |kc| == 7
  {
    seq(7, r requires 0 <= r < 7 => ShiftedDown(Lowered(keycode), r) % 256)
  }

  /** Entry n of the square of 256 values: row and column generators side by side. */
  function BaseAt(kc: seq<byte>, n: nat): byte
    requires |kc| == 7 && n < 256
  {
    Slot(kc[0], n / 16) * 16 + Slot(Seeds(kc)[n / 16], n % 16)
  }

  lemma BaseDistinct(kc: seq<byte>, m: nat, n: nat)
    requires |kc| == 7 && m < 256 && n < 256 && m != n
    ensures BaseAt(kc, m) != BaseAt(kc, n)
  {
    if m / 16 != n / 16 {
      SlotsDistinct(kc[0], m / 16, n / 16);
    } else {
      SlotsDistinct(Seeds(kc)[m / 16], m % 16, n % 16);
    }
    hide Slot, Seeds;
  }

  /** Stride 17 visits every entry of the square once. */
  function WalkIndex(i: nat): nat { (17 * (i + 1)) % 256 }

  lemma WalkDistinct(i: nat, j: nat)
    requires i < j < 256
    ensures WalkIndex(i) != WalkIndex(j)
  {
    if WalkIndex(i) == WalkIndex(j) {
      SameResidue256(17 * (i + 1), 17 * (j + 1));
      var d := j - i;
      assert (17 * d) % 256 == 0;
      assert d % 256 == 0 by { UndoSeventeen(d); }
    }
  }

  /** 17 is invertible modulo 256: 17 * 241 = 1. */
  lemma UndoSeventeen(d: nat)
    requires (17 * d) % 256 == 0
    ensures d % 256 == 0
  {
    var k := 17 * d / 256;
    assert 17 * d == 256 * k;
    assert d == 256 * (241 * k - 16 * d);
  }

  function Walk56(kc: seq<byte>): (w: seq<byte>)
    requires |kc| == 7
    ensures |w| == 256
  {
    seq(256, i requires 0 <= i < 256 => BaseAt(kc, WalkIndex(i)))
  }

  function Table56(keycode: nat): seq<byte> { TableOf(Walk56(KeyBytes(keycode))) }

  lemma Walk56Injective(kc: seq<byte>)
    requires |kc| == 7
    ensures Injective(Walk56(kc))
  {
    hide BaseAt, WalkIndex;
    forall i, j | 0 <= i < j < 256 ensures Walk56(kc)[i] != Walk56(kc)[j] {
      WalkDistinct(i, j);
      WalkInRange(i);
      WalkInRange(j);
      BaseDistinct(kc, WalkIndex(i), WalkIndex(j));
    }
  }

  lemma WalkInRange(i: nat)
    ensures WalkIndex(i) < 256
  {
  }

  /** Of any 256 different bytes exactly 254 are kept. */
  lemma KeptOfAll(walk: seq<byte>)
    requires |walk| == 256 && Injective(walk)
    ensures |Kept(walk)| == 254
  {
    var i := Surjective(walk, 0);
    var j := Surjective(walk, 255);
    KeptSize(walk);
  }

  /** For every 64-bit key code the table is a permutation that fixes both end values. */
  lemma Table56IsSubstitution(keycode: nat)
    ensures IsSubstitution(Table56(keycode))
  {
    hide Walk56, IsSubstitution, Kept;
    var walk := Walk56(KeyBytes(keycode));
    Walk56Injective(KeyBytes(keycode));
    KeptOfAll(walk);
    TableIsSubstitution(walk);
  }

  /** The values of the fixed generator, from its first step on. */
  function Walk1(n: nat): (w: seq<byte>)
    ensures |w| == n
  {
    seq(n, i requires 0 <= i => Iterate(13, 11, 0, i + 1) % 256)
  }

  function Table1(): seq<byte> { TableOf(Walk1(255)) }

  lemma Walk1Injective(n: nat)
    requires n <= 256
    ensures Injective(Walk1(n))
  {
    hide Iterate;
    forall i, j | 0 <= i < j < n ensures Walk1(n)[i] != Walk1(n)[j] {
      DistinctModulo256(13, 11, 0, i + 1, j + 1);
    }
  }

  /** The generator comes back to 0 only at its 256th step. */
  lemma Walk1Zero(i: nat)
    requires i < 255
    ensures Iterate(13, 11, 0, i + 1) % 256 != 0
  {
    assert Iterate(13, 11, 0, 0) == 0;
    DistinctModulo256(13, 11, 0, 0, i + 1);
  }

  lemma Walk1Complete()
    ensures |Kept(Walk1(255))| == 254 && 255 in Walk1(255)
  {
    hide Iterate;
    var all := Walk1(256);
    Walk1Injective(256);
    Walk1Injective(255);
    assert all[..255] == Walk1(255);
    var z := Surjective(all, 0);
    var j := Surjective(all, 255);
    if z < 255 {
      Walk1Zero(z);
    }
    assert all[255] == 0 && j < 255 && Walk1(255)[j] == 255;
    forall k | 0 <= k < 255 ensures Walk1(255)[k] != 0 {
      Walk1Zero(k);
    }
    KeptSize(Walk1(255));
  }

  lemma Table1IsSubstitution()
    ensures IsSubstitution(Table1())
  {
    Walk1Complete();
    Walk1Injective(255);
    TableIsSubstitution(Walk1(255));
  }

  // ---------- filling the table in place ----------

  method CipherInit0(cipherTable: array<byte>)
    requires cipherTable.Length == 256
    modifies cipherTable
    ensures cipherTable[..] == IdentityTable()
  {
    for i := 0 to 256
      invariant forall k :: 0 <= k < i ==> cipherTable[k] == k
    {
      cipherTable[i] := i;
    }
  }

  method CreateTable(key: byte) returns (r: array<byte>)
    ensures fresh(r) && r.Length == 16
    ensures forall i :: 0 <= i < 16 ==> r[i] == Slot(key, i)
  {
    hide MulOf, AddOf, Slot;
    r := new byte[16];
    var mul, add := MulOf(key), AddOf(key);
    var k: nat := key / 16;
    for i := 0 to 16
      invariant k == Iterate(mul, add, key / 16, i) % 16
      invariant forall j :: 0 <= j < i ==> r[j] == Slot(key, j)
    {
      SlotNext(key, k, i);
      k := (k * mul + add) % 16;
      r[i] := k;
    }
  }

  lemma IterateNext(mul: nat, add: nat, x: nat, n: nat)
    ensures Iterate(mul, add, x, n + 1) == mul * Iterate(mul, add, x, n) + add
  {
  }

  lemma Swapped(a: nat, b: nat)
    ensures a * b == b * a
  {
  }

  /** One reduced generator step gives the next slot. */
  lemma SlotNext(key: byte, k: nat, i: nat)
    requires k == Iterate(MulOf(key), AddOf(key), key / 16, i) % 16 && i < 16
    ensures (k * MulOf(key) + AddOf(key)) % 16 == Iterate(MulOf(key), AddOf(key), key / 16, i + 1) % 16 == Slot(key, i)
  {
    assert MulOf(key) == 5 || MulOf(key) == 13;
    hide MulOf, AddOf, Iterate;
    var mul, add := MulOf(key), AddOf(key);
    var x := Iterate(mul, add, key / 16, i);
    IterateNext(mul, add, key / 16, i);
    ReduceStep16(mul, add, x);
    Swapped(k, mul);
  }

  /** One more generator step is kept unless it is an end value. */
  lemma Walk1Step(m: nat)
    ensures var v := Iterate(13, 11, 0, m + 1) % 256;
      Kept(Walk1(m + 1)) == Kept(Walk1(m)) + (if v == 0 || v == 255 then [] else [v])
  {
    hide Iterate;
    assert Walk1(m + 1)[..m] == Walk1(m);
  }

  lemma Walk1EndValue(m: nat)
    requires m < 254 && Iterate(13, 11, 0, m + 1) % 256 == 255
    ensures Iterate(13, 11, 0, m + 2) % 256 != 0 && Iterate(13, 11, 0, m + 2) % 256 != 255
  {
    Walk1Zero(m + 1);
    DistinctModulo256(13, 11, 0, m + 1, m + 2);
  }

  method CipherInit1(cipherTable: array<byte>)
    requires cipherTable.Length == 256
    modifies cipherTable
    ensures cipherTable[..] == Table1()
  {
    hide Iterate, Kept;
    var v: nat := 0;
    ghost var m := 0;
    assert Iterate(13, 11, 0, 0) == 0 by { IterateZero(); }
    assert Kept(Walk1(0)) == [] by { KeptNothing(); }
    for i := 1 to 255
      invariant v == Iterate(13, 11, 0, m) % 256
      invariant i - 1 <= m <= i && (m == i <==> 255 in Walk1(m))
      invariant cipherTable[1..i] == Kept(Walk1(m))
    {
      ghost var kept := cipherTable[1..i];
      Walk1Advance(m);
      v := (v * 13 + 11) % 256;
      m := m + 1;
      if v == 0 || v == 255 {
        Walk1EndValue(m - 1);
        Walk1Advance(m);
        v := (v * 13 + 11) % 256;
        m := m + 1;
      }
      cipherTable[i] := v;
      assert cipherTable[1..i + 1] == kept + [v];
    }
    ghost var kept := cipherTable[1..255];
    cipherTable[0] := 0;
    cipherTable[255] := 255;
    assert kept == Kept(Walk1(255)) by { Walk1Last(m); }
    assert cipherTable[..] == [0] + kept + [255];
  }

  lemma IterateZero()
    ensures Iterate(13, 11, 0, 0) == 0
  {
  }

  lemma KeptNothing()
    ensures Kept(Walk1(0)) == []
  {
  }

  lemma Walk1Advance(m: nat)
    ensures (Iterate(13, 11, 0, m) % 256 * 13 + 11) % 256 == Iterate(13, 11, 0, m + 1) % 256
    ensures var v := Iterate(13, 11, 0, m + 1) % 256;
      Kept(Walk1(m + 1)) == Kept(Walk1(m)) + (if v == 0 || v == 255 then [] else [v])
    ensures 255 in Walk1(m + 1) <==> 255 in Walk1(m) || Iterate(13, 11, 0, m + 1) % 256 == 255
    ensures m < 255 ==> Iterate(13, 11, 0, m + 1) % 256 != 0
    ensures m < 255 && 255 in Walk1(m) ==> Iterate(13, 11, 0, m + 1) % 256 != 255
  {
    ReduceStep256(Iterate(13, 11, 0, m));
    Walk1Step(m);
    hide Kept;
    assert Walk1(m + 1) == Walk1(m) + [Iterate(13, 11, 0, m + 1) % 256];
    if m < 255 {
      Walk1Zero(m);
      Walk1Injective(m + 1);
      assert Walk1(m + 1)[m] == Iterate(13, 11, 0, m + 1) % 256;
    }
  }

  lemma Walk1Last(m: nat)
    requires 254 <= m <= 255 && (m == 255 <==> 255 in Walk1(m))
    ensures Kept(Walk1(m)) == Kept(Walk1(255))
  {
    if m == 254 {
      Walk1Complete();
      Walk1Advance(254);
    }
  }

  method FillSeeds(kc: array<byte>) returns (seed: array<byte>)
    requires kc.Length == 8
    ensures fresh(seed) && seed.Length == 16
    ensures seed[..] == Seeds(kc[..7])
  {
    hide Xor;
    seed := new byte[16];
    seed[0x00] := kc[1];
    seed[0x01] := Xor(kc[1], kc[6]);
    seed[0x02] := Xor(kc[2], kc[3]);
    seed[0x03] := kc[2];
    seed[0x04] := Xor(kc[2], kc[1]);
    seed[0x05] := Xor(kc[3], kc[4]);
    seed[0x06] := kc[3];
    seed[0x07] := Xor(kc[3], kc[2]);
    seed[0x08] := Xor(kc[4], kc[5]);
    seed[0x09] := kc[4];
    seed[0x0A] := Xor(kc[4], kc[3]);
    seed[0x0B] := Xor(kc[5], kc[6]);
    seed[0x0C] := kc[5];
    seed[0x0D] := Xor(kc[5], kc[4]);
    seed[0x0E] := Xor(kc[6], kc[1]);
    seed[0x0F] := kc[6];
  }

  method FillBase(kc: seq<byte>, seed: array<byte>) returns (base: array<byte>)
    requires |kc| == 7 && seed.Length == 16
    requires seed[..] == Seeds(kc)
    ensures fresh(base) && base.Length == 256
    ensures forall n :: 0 <= n < 256 ==> base[n] == BaseAt(kc, n)
  {
    hide Slot, Seeds;
    base := new byte[256];
    var baseR := CreateTable(kc[0]);
    for r := 0 to 16
      modifies base
      invariant forall n :: 0 <= n < 16 * r ==> base[n] == BaseAt(kc, n)
    {
      var baseC := CreateTable(seed[r]);
      assert seed[r] == seed[..][r];
      SlotInRange(kc[0], r);
      var nb: byte := baseR[r] * 16;
      for c := 0 to 16
        modifies base
        invariant forall n :: 0 <= n < 16 * r + c ==> base[n] == BaseAt(kc, n)
      {
        SlotInRange(seed[r], c);
        assert (r * 16 + c) / 16 == r && (r * 16 + c) % 16 == c;
        base[r * 16 + c] := nb + baseC[c];
      }
    }
  }

  lemma SlotInRange(key: byte, i: nat)
    ensures Slot(key, i) < 16
  {
  }

  /** The low seven bytes of the lowered code; the eighth slot stays unused. */
  method FillKeyBytes(keycode: nat) returns (kc: array<byte>)
    ensures fresh(kc) && kc.Length == 8 && kc[..7] == KeyBytes(keycode)
  {
    kc := new byte[8];
    var code := if keycode != 0 then keycode - 1 else keycode;
    for r := 0 to 7
      invariant code == ShiftedDown(Lowered(keycode), r)
      invariant forall j :: 0 <= j < r ==> kc[j] == KeyBytes(keycode)[j]
    {
      kc[r] := code % 256;
      code := code / 256;
    }
  }

  /** The walk with stride 17 over the square; the write position ends at exactly 255. */
  method FillTable(cipherTable: array<byte>, base: array<byte>, ghost kc: seq<byte>)
    requires cipherTable.Length == base.Length == 256 && cipherTable != base && |kc| == 7
    requires forall n :: 0 <= n < 256 ==> base[n] == BaseAt(kc, n)
    modifies cipherTable
    ensures cipherTable[1..255] == Kept(Walk56(kc))
  {
    hide BaseAt, Kept, WalkIndex, Injective;
    ghost var walk := Walk56(kc);
    Walk56Injective(kc);
    var x, pos := 0, 1;
    assert Kept(walk[..0]) == [] by { assert walk[..0] == Walk1(0); KeptNothing(); }
    for i := 0 to 256
      invariant x == (17 * i) % 256
      invariant 1 <= pos <= 255
      invariant cipherTable[1..pos] == Kept(walk[..i])
    {
      ghost var kept := cipherTable[1..pos];
      x := (x + 17) % 256;
      WalkIndexStep(i);
      KeptNext(walk, i);
      assert walk[i] == base[x];
      if base[x] != 0 && base[x] != 255 {
        cipherTable[pos] := base[x];
        pos := pos + 1;
        assert cipherTable[1..pos] == kept + [base[x]];
      }
    }
    assert walk[..256] == walk;
    KeptOfAll(walk);
    assert pos == 255;
  }

  method CipherInit56(cipherTable: array<byte>, keycode: nat)
    requires cipherTable.Length == 256
    modifies cipherTable
    ensures cipherTable[..] == Table56(keycode)
  {
    hide BaseAt, Kept, Seeds, KeyBytes, Walk56;
    var kc := FillKeyBytes(keycode);
    var seed := FillSeeds(kc);
    var base := FillBase(kc[..7], seed);
    FillTable(cipherTable, base, KeyBytes(keycode));
    ghost var kept := cipherTable[1..255];
    cipherTable[0] := 0;
    cipherTable[255] := 255;
    assert cipherTable[..] == [0] + kept + [255];
  }

  lemma WalkIndexStep(i: nat)
    ensures ((17 * i) % 256 + 17) % 256 == WalkIndex(i) == (17 * (i + 1)) % 256
  {
    var q, z := 17 * i / 256, (17 * i) % 256 + 17;
    Residue256(17 * (i + 1), q + z / 256, z % 256);
  }

  lemma KeptNext(walk: seq<byte>, i: nat)
    requires |walk| == 256 && Injective(walk) && i < 256
    ensures Kept(walk[..i + 1]) == Kept(walk[..i]) + (if walk[i] == 0 || walk[i] == 255 then [] else [walk[i]])
    ensures |Kept(walk[..i + 1])| <= 254
  {
    assert walk[..i + 1][..i] == walk[..i];
    KeptOfAll(walk);
    KeptGrows(walk, i + 1);
  }

  lemma {:induction false} KeptGrows(walk: seq<byte>, i: nat)
    requires i <= |walk|
    ensures |Kept(walk[..i])| <= |Kept(walk)|
    decreases |walk|
  {
    if i < |walk| {
      KeptGrows(walk[..|walk| - 1], i);
      assert walk[..|walk| - 1][..i] == walk[..i];
    } else {
      assert walk[..i] == walk;
    }
  }

  // ---------- the key schedule as its sources state it ----------

  /** The seven key bytes are the code less one, least significant first; what is above 56 bits is lost. */
  lemma KeyBytesAre(keycode: nat)
    ensures LittleValue(KeyBytes(keycode)) == (if keycode > 0 then keycode - 1 else 0) % 0x100_0000_0000_0000
  {
    var code := if keycode > 0 then keycode - 1 else 0;
    KeyBytesLittle(keycode);
    LittleBytesValue(code, 7);
    assert Scale(7) == 0x100_0000_0000_0000 by { Scales(); }
    hide KeyBytes, LittleBytes, LittleValue, Scale;
  }

  lemma KeyBytesLittle(keycode: nat)
    ensures KeyBytes(keycode) == LittleBytes(if keycode > 0 then keycode - 1 else 0, 7)
  {
    var code := if keycode > 0 then keycode - 1 else 0;
    forall r: nat | r < 7 ensures KeyBytes(keycode)[r] == LittleBytes(code, 7)[r] {
      LittleByteAt(code, 7, r);
      ShiftsAgree(keycode, r);
    }
  }

  lemma {:induction false} ShiftsAgree(keycode: nat, r: nat)
    ensures ShiftedDown(Lowered(keycode), r) == Divided(if keycode > 0 then keycode - 1 else 0, r)
  {
    if r > 0 {
      ShiftsAgree(keycode, r - 1);
      DividedLast(if keycode > 0 then keycode - 1 else 0, r);
    }
  }

  function Divided(v: nat, r: nat): nat { if r == 0 then v else Divided(v / 256, r - 1) }

  lemma {:induction false} DividedLast(v: nat, r: nat)
    requires r > 0
    ensures Divided(v, r) == Divided(v, r - 1) / 256
  {
    if r > 1 {
      DividedLast(v / 256, r - 1);
    }
  }

  lemma {:induction false} LittleByteAt(v: nat, k: nat, r: nat)
    requires r < k
    ensures LittleBytes(v, k)[r] == Divided(v, r) % 256
  {
    if r > 0 {
      LittleByteAt(v / 256, k - 1, r - 1);
    }
  }

  lemma {:induction false} LittleBytesValue(v: nat, k: nat)
    ensures LittleValue(LittleBytes(v, k)) == v % Scale(k)
  {
    if k > 0 {
      LittleBytesValue(v / 256, k - 1);
      assert LittleBytes(v, k)[1..] == LittleBytes(v / 256, k - 1);
      ModuloStep(v, Scale(k - 1));
    }
  }

  lemma ModuloStep(v: nat, m: nat)
    requires m > 0
    ensures v % (256 * m) == v % 256 + 256 * (v / 256 % m)
  {
    var q, r := v / 256 / m, v % 256 + 256 * (v / 256 % m);
    assert v == 256 * (v / 256) + v % 256;
    assert v / 256 == m * q + v / 256 % m;
    assert v == 256 * m * q + r by { assert 256 * (m * q) == 256 * m * q; }
    assert 0 <= r < 256 * m;
    Unique(v, 256 * m, q, r);
  }

  lemma Unique(v: nat, m: nat, q: nat, r: nat)
    requires m > 0 && r < m && v == m * q + r
    ensures v % m == r
  {
    assert m * (v / m) + v % m == m * q + r;
    var d := v / m - q;
    assert m * d == r - v % m by { assert m * (v / m - q) == m * (v / m) - m * q; }
    Multiple(m, d);
  }

  lemma Multiple(m: nat, d: int)
    requires m > 0
    ensures d > 0 ==> m * d >= m
    ensures d < 0 ==> m * d + m <= 0
  {
  }

  /** The six key bytes behind the first in a ring. */
  function RingByte(kc: seq<byte>, j: int): byte
    requires |kc| == 7
  {
    kc[1 + j % 6]
  }

  /** Every third seed is a byte of the ring; between two of them stand its exclusive or with the byte before, and the next two combined. */
  lemma SeedRing(kc: seq<byte>, j: nat)
    requires |kc| == 7 && j < 6
    ensures var seeds := Seeds(kc);
      seeds[3 * j] == RingByte(kc, j)
      && (j < 5 ==> seeds[3 * j + 1] == Xor(RingByte(kc, j), RingByte(kc, j - 1))
                    && seeds[3 * j + 2] == Xor(RingByte(kc, j + 1), RingByte(kc, j + 2)))
  {
    hide Xor;
  }

  /** The generator of a key byte: a multiplier by its parity, its low half made odd as increment, started from the high half. */
  lemma GeneratorIs(key: byte, i: nat)
    requires i < 15
    ensures MulOf(key) == if key % 2 == 1 then 13 else 5
    ensures AddOf(key) == if key % 2 == 1 then key % 16 else key % 16 + 1
    ensures Slot(key, 0) == (key / 16 * MulOf(key) + AddOf(key)) % 16
    ensures Slot(key, i + 1) == (Slot(key, i) * MulOf(key) + AddOf(key)) % 16
  {
    hide *;
    GeneratorParts(key);
    IterateNone(MulOf(key), AddOf(key), key / 16);
    SlotIs(key, i);
    HighHalf(key);
    SlotNext(key, key / 16, 0);
    SlotNext(key, Slot(key, i), i + 1);
  }

  lemma HighHalf(key: byte)
    ensures key / 16 % 16 == key / 16
  {
  }

  lemma SlotIs(key: byte, i: nat)
    ensures Slot(key, i) == Iterate(MulOf(key), AddOf(key), key / 16, i + 1) % 16
  {
    hide MulOf, AddOf, Iterate;
  }

  lemma GeneratorParts(key: byte)
    ensures MulOf(key) == if key % 2 == 1 then 13 else 5
    ensures AddOf(key) == if key % 2 == 1 then key % 16 else key % 16 + 1
  {
  }

  lemma IterateNone(mul: nat, add: nat, x: nat)
    ensures Iterate(mul, add, x, 0) == x
  {
  }

  lemma {:induction false} KeptStart(walk: seq<byte>, i: nat)
    requires i <= |walk|
    ensures |Kept(walk[..i])| <= |Kept(walk)| && Kept(walk)[..|Kept(walk[..i])|] == Kept(walk[..i])
    decreases |walk|
  {
    if i < |walk| {
      KeptStart(walk[..|walk| - 1], i);
      assert walk[..|walk| - 1][..i] == walk[..i];
    } else {
      assert walk[..i] == walk;
    }
  }

  /** The first entries of the keyless table. */
  lemma Table1Starts()
    ensures |Table1()| == 256 && Table1()[1] == 11 && Table1()[2] == 154
  {
    hide *;
    Walk1Complete();
    Walk1Starts();
    KeptStart(Walk1(255), 2);
    KeptTwo(11, 154);
    Table1Is();
    var kept := Kept(Walk1(255));
    assert kept[0] == kept[..2][0] && kept[1] == kept[..2][1];
  }

  lemma Walk1Starts()
    ensures Walk1(255)[..2] == [11, 154]
  {
    IterateNext(13, 11, 0, 0);
    IterateNext(13, 11, 0, 1);
    IterateZero();
    hide Iterate;
  }

  lemma Table1Is()
    ensures Table1() == [0] + Kept(Walk1(255)) + [255]
  {
    hide Kept, Walk1;
  }

  lemma KeptTwo(a: byte, b: byte)
    requires 0 < a < 255 && 0 < b < 255
    ensures Kept([a, b]) == [a, b] && Kept([a]) == [a]
  {
    assert [a][..0] == [] && [a, b][..1] == [a];
    assert Kept([a]) == [a];
  }

  /** The walk starts one step behind the corner of the square. */
  lemma Table56Starts(keycode: nat)
    ensures |Table56(keycode)| == 256
    ensures var kc := KeyBytes(keycode);
      var first := BaseAt(kc, 17);
      first != 0 && first != 255 ==> Table56(keycode)[1] == first
  {
    hide *;
    var kc := KeyBytes(keycode);
    var walk := Walk56(kc);
    Walk56Injective(kc);
    KeptOfAll(walk);
    Table56Is(keycode);
    WalkStarts(kc);
    KeptStart(walk, 1);
    KeptOne(BaseAt(kc, 17));
    if BaseAt(kc, 17) != 0 && BaseAt(kc, 17) != 255 {
      assert Kept(walk)[0] == Kept(walk)[..1][0];
    }
  }

  lemma WalkStarts(kc: seq<byte>)
    requires |kc| == 7
    ensures Walk56(kc)[..1] == [BaseAt(kc, 17)]
  {
    hide BaseAt;
  }

  lemma Table56Is(keycode: nat)
    ensures Table56(keycode) == [0] + Kept(Walk56(KeyBytes(keycode))) + [255]
  {
    hide Kept, Walk56, KeyBytes;
  }

  lemma KeptOne(a: byte)
    ensures Kept([a]) == if a == 0 || a == 255 then [] else [a]
  {
    assert [a][..0] == [];
  }

  /** Three key codes: the lowest, the one above, and one whose second byte counts. */
  lemma KnownTables()
    ensures Table56(1)[1] == 0x66 && Table56(2)[1] == 0xE6 && Table56(0x101)[1] == 0x6E
  {
    hide *;
    KnownKeys();
    KnownSlots();
    FirstEntry(1, 0, 0);
    FirstEntry(2, 1, 0);
    FirstEntry(0x101, 0, 1);
  }

  lemma FirstEntry(keycode: nat, a: byte, b: byte)
    requires KeyBytes(keycode)[0] == a && Seeds(KeyBytes(keycode))[1] == b
    ensures |Table56(keycode)| == 256
    ensures var first := Slot(a, 1) * 16 + Slot(b, 1); 0 < first < 255 ==> Table56(keycode)[1] == first
  {
    hide *;
    Table56Starts(keycode);
    BaseSeventeen(KeyBytes(keycode));
  }

  lemma BaseSeventeen(kc: seq<byte>)
    requires |kc| == 7
    ensures BaseAt(kc, 17) == Slot(kc[0], 1) * 16 + Slot(Seeds(kc)[1], 1)
  {
    hide Slot, Seeds;
  }

  lemma KnownSlots()
    ensures Slot(0, 1) == 6 && Slot(1, 1) == 14
  {
    GeneratorIs(0, 0);
    GeneratorIs(1, 0);
    hide Slot, MulOf, AddOf;
    assert Slot(0, 1) == (Slot(0, 0) * 5 + 1) % 16 && Slot(1, 1) == (Slot(1, 0) * 13 + 1) % 16;
  }

  lemma KnownKeys()
    ensures KeyBytes(1)[0] == 0 && Seeds(KeyBytes(1))[1] == 0 && KeyBytes(2)[0] == 1 && Seeds(KeyBytes(2))[1] == 0
    ensures KeyBytes(0x101)[0] == 0 && Seeds(KeyBytes(0x101))[1] == 1
  {
    KeyBytesFew(0);
    KeyBytesFew(1);
    KeyBytesFew(0x100);
    assert Xor(0, 0) == 0 && Xor(1, 0) == 1;
  }

  lemma KeyBytesFew(code: nat)
    requires code < 0x1_0000
    ensures KeyBytes(code + 1) == [code % 256, code / 256, 0, 0, 0, 0, 0]
  {
    KeyBytesLittle(code + 1);
    assert code / 256 % 256 == code / 256 && code / 256 / 256 == 0;
    LittleZeros(5);
    hide KeyBytes;
    assert LittleBytes(code, 7) == [code % 256] + LittleBytes(code / 256, 6);
    assert LittleBytes(code / 256, 6) == [code / 256] + LittleBytes(0, 5);
  }

  lemma {:induction false} LittleZeros(k: nat)
    ensures LittleBytes(0, k) == seq(k, _ => 0)
  {
    if k > 0 {
      LittleZeros(k - 1);
    }
  }

  /** The table an accepted cipher type and key code give; type 56 with no key is no cipher. */
  function TableFor(ciphType: nat, keycode: nat): seq<byte>
    requires ciphType == 0 || ciphType == 1 || ciphType == 56
  {
    if ciphType == 1 then Table1()
    else if ciphType == 56 && keycode != 0 then Table56(keycode)
    else IdentityTable()
  }

  method CipherInit(cipherTable: array<byte>, ciphType: nat, keycode: nat) returns (ok: bool)
    requires cipherTable.Length == 256
    modifies cipherTable
    ensures ok <==> ciphType == 0 || ciphType == 1 || ciphType == 56
    ensures ok ==> cipherTable[..] == TableFor(ciphType, keycode)
    ensures !ok ==> cipherTable[..] == old(cipherTable[..])
  {
    var kind := if ciphType == 56 && keycode == 0 then 0 else ciphType;
    ok := true;
    if kind == 0 {
      CipherInit0(cipherTable);
    } else if kind == 1 {
      CipherInit1(cipherTable);
    } else if kind == 56 {
      CipherInit56(cipherTable, keycode);
    } else {
      ok := false;
    }
  }

  /** Type 0, and type 56 without a key, change no byte; type 1 and type 56 have the tables that start as shown above. */
  lemma TypesSelect(keycode: nat, v: byte)
    ensures TableFor(0, keycode)[v] == v && TableFor(56, 0)[v] == v
    ensures |TableFor(1, keycode)| == 256 && TableFor(1, keycode)[1] == 11 && TableFor(1, keycode)[2] == 154
    ensures |TableFor(56, 1)| == 256 && |TableFor(56, 2)| == 256 && TableFor(56, 1)[1] == 0x66 && TableFor(56, 2)[1] == 0xE6
  {
    hide Table1, Table56, Kept, Injective;
    Table1Starts();
    Table56IsSubstitution(1);
    Table56IsSubstitution(2);
    KnownTables();
  }

  /** Whatever the cipher type and the key, the table is a permutation fixing 0x00 and 0xFF. */
  lemma EveryTableIsSubstitution(ciphType: nat, keycode: nat)
    requires ciphType == 0 || ciphType == 1 || ciphType == 56
    ensures IsSubstitution(TableFor(ciphType, keycode))
  {
    hide Table56, Kept;
    if ciphType == 1 {
      Table1IsSubstitution();
    } else if ciphType == 56 {
      Table56IsSubstitution(keycode);
    }
  }

  // ---------- decrypting a frame ----------

  function Substituted(t: seq<byte>, data: seq<byte>): (r: seq<byte>)
    requires |t| == 256
    ensures |r| == |data|
  {
    seq(|data|, i requires 0 <= i < |data| => t[data[i]])
  }

  method CipherDecrypt(cipherTable: array<byte>, data: array<byte>, size: nat)
    requires cipherTable.Length == 256 && size <= data.Length && cipherTable != data
    modifies data
    ensures data[..] == Substituted(cipherTable[..], old(data[..size])) + old(data[size..])
  {
    for i := 0 to size
      invariant forall k :: 0 <= k < i ==> data[k] == cipherTable[old(data[k])]
      invariant forall k :: i <= k < data.Length ==> data[k] == old(data[k])
    {
      data[i] := cipherTable[data[i]];
    }
  }

  /** The table that undoes a substitution. */
  function PositionOf(t: seq<byte>, v: byte, i: nat): (k: nat)
    requires |t| == 256 && i <= 256
    ensures k <= 256 && (k < 256 ==> t[k] == v)
    ensures k == 256 ==> forall j :: i <= j < 256 ==> t[j] != v
    decreases 256 - i
  {
    if i == 256 then 256 else if t[i] == v then i else PositionOf(t, v, i + 1)
  }

  function InverseTable(t: seq<byte>): (r: seq<byte>)
    requires |t| == 256
    ensures |r| == 256
  {
    seq(256, v requires 0 <= v < 256 => PositionOf(t, v, 0) % 256)
  }

  lemma InverseUndoes(t: seq<byte>, v: byte)
    requires |t| == 256 && Injective(t)
    ensures t[InverseTable(t)[v]] == v && InverseTable(t)[t[v]] == v
  {
    var i := Surjective(t, v);
    var k, m := PositionOf(t, v, 0), PositionOf(t, t[v], 0);
    InverseAt(t, v);
    InverseAt(t, t[v]);
    hide PositionOf, InverseTable;
    assert t[i] == v && t[k] == v && t[m] == t[v];
  }

  lemma InverseAt(t: seq<byte>, v: byte)
    requires |t| == 256
    ensures var k := PositionOf(t, v, 0);
      (exists i :: 0 <= i < 256 && t[i] == v) ==> k < 256 && t[k] == v && InverseTable(t)[v] == k
  {
  }

  /** Decryption is invertible on every frame, in both directions, and keeps the 0xFFFF sync word. */
  lemma DecryptInvertible(ciphType: nat, keycode: nat, t: seq<byte>, data: seq<byte>)
    requires ciphType == 0 || ciphType == 1 || ciphType == 56
    requires t == TableFor(ciphType, keycode)
    ensures |t| == 256
    ensures Substituted(InverseTable(t), Substituted(t, data)) == data
    ensures Substituted(t, Substituted(InverseTable(t), data)) == data
    ensures forall i :: 0 <= i < |data| ==> (Substituted(t, data)[i] == 255 <==> data[i] == 255)
  {
    EveryTableIsSubstitution(ciphType, keycode);
    hide TableFor, InverseTable;
    forall i | 0 <= i < |data|
      ensures InverseTable(t)[t[data[i]]] == data[i] && t[InverseTable(t)[data[i]]] == data[i]
    {
      InverseUndoes(t, data[i]);
    }
  }
}

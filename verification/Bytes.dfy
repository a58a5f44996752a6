/**
  Bytes and fixed-width unsigned numbers.
 */
module Bytes {

  type byte = x: int | 0 <= x < 256

  /** 256 to the power k. */
  function Scale(k: nat): (s: nat)
    ensures s > 0
  {
    if k == 0 then 1 else 256 * Scale(k - 1)
  }

  lemma Scales()
    ensures Scale(1) == 0x100 && Scale(2) == 0x1_0000 && Scale(4) == 0x1_0000_0000
    ensures Scale(8) == 0x1_0000_0000_0000_0000
  {
    assert Scale(2) == 256 * Scale(1) && Scale(3) == 256 * Scale(2) && Scale(4) == 256 * Scale(3);
    assert Scale(5) == 256 * Scale(4) && Scale(6) == 256 * Scale(5) && Scale(7) == 256 * Scale(6);
  }

  // ---------- least significant byte first ----------

  function LittleValue(s: seq<byte>): (v: nat)
    ensures v < Scale(|s|)
  {
    if s == [] then 0 else s[0] + 256 * LittleValue(s[1..])
  }

  function LittleBytes(v: nat, k: nat): (s: seq<byte>)
    ensures |s| == k
  {
    if k == 0 then [] else [v % 256] + LittleBytes(v / 256, k - 1)
  }

  lemma {:induction false} LittleRoundTrip(v: nat, k: nat)
    requires v < Scale(k)
    ensures LittleValue(LittleBytes(v, k)) == v
  {
    if k > 0 {
      LittleRoundTrip(v / 256, k - 1);
      assert LittleBytes(v, k)[1..] == LittleBytes(v / 256, k - 1);
    }
  }

  // ---------- most significant byte first ----------

  function BigValue(s: seq<byte>): (v: nat)
    ensures v < Scale(|s|)
  {
    if s == [] then 0 else 256 * BigValue(s[..|s| - 1]) + s[|s| - 1]
  }

  function BigBytes(v: nat, k: nat): (s: seq<byte>)
    ensures |s| == k
  {
    if k == 0 then [] else BigBytes(v / 256, k - 1) + [v % 256]
  }

  lemma {:induction false} BigRoundTrip(v: nat, k: nat)
    requires v < Scale(k)
    ensures BigValue(BigBytes(v, k)) == v
  {
    if k > 0 {
      BigRoundTrip(v / 256, k - 1);
      assert BigBytes(v, k)[..k - 1] == BigBytes(v / 256, k - 1);
    }
  }

  // ---------- fields of a byte string ----------

  /** The bytes of a field lie at its place. */
  predicate Holds(data: seq<byte>, at: nat, field: seq<byte>)
  {
    at + |field| <= |data| && data[at..at + |field|] == field
  }

  lemma HoldsParts(data: seq<byte>, at: nat, a: seq<byte>, b: seq<byte>)
    ensures Holds(data, at, a + b) <==> Holds(data, at, a) && Holds(data, at + |a|, b)
  {
    if at + |a| + |b| <= |data| {
      var whole := data[at..at + |a| + |b|];
      assert whole == data[at..at + |a|] + data[at + |a|..at + |a| + |b|];
      assert (a + b)[..|a|] == a && (a + b)[|a|..] == b;
      assert whole[..|a|] == data[at..at + |a|] && whole[|a|..] == data[at + |a|..at + |a| + |b|];
    }
  }

  lemma HoldsLast(before: seq<byte>, field: seq<byte>)
    ensures Holds(before + field, |before|, field)
  {
  }

  lemma HoldsInside(before: seq<byte>, field: seq<byte>, after: seq<byte>)
    ensures Holds(before + field + after, |before|, field)
  {
  }

  lemma HoldsExtended(data: seq<byte>, at: nat, field: seq<byte>, more: seq<byte>)
    requires Holds(data, at, field)
    ensures Holds(data + more, at, field)
  {
    assert (data + more)[at..at + |field|] == data[at..at + |field|];
  }

  lemma SliceOfSlice(s: seq<byte>, a: nat, n: nat, c: nat, d: nat)
    requires a + n <= |s| && c <= d <= n
    ensures s[a..a + n][c..d] == s[a + c..a + d]
  {
    var x, y := s[a..a + n][c..d], s[a + c..a + d];
    forall k | 0 <= k < d - c ensures x[k] == y[k] {
      assert x[k] == s[a..a + n][c + k];
    }
    assert |x| == |y|;
  }

  lemma HoldsWithin(data: seq<byte>, at: nat, whole: seq<byte>, inside: nat, field: seq<byte>)
    requires Holds(data, at, whole) && Holds(whole, inside, field)
    ensures Holds(data, at + inside, field)
  {
    SliceOfSlice(data, at, |whole|, inside, inside + |field|);
    assert at + (inside + |field|) == at + inside + |field|;
  }
}

/**
  The USM content masks: the video mask feeds every decoded byte back into its key stream,
  the audio mask does not.
 */
module UsmMask {

  type Block = s: seq<bv8> | |s| == 0x20 witness seq(0x20, _ => 0)

  const VIDEO_BASE := 0x40
  const AUDIO_BASE := 0x140

  // ---------- xor ----------

  function Xor(a: bv8, b: bv8): bv8 { a ^ b }

  lemma XorCancels(a: bv8, b: bv8)
    ensures Xor(Xor(a, b), b) == a
  {
  }

  lemma XorMoves(a: bv8, b: bv8, c: bv8)
    ensures Xor(a, Xor(b, c)) == Xor(Xor(a, b), c)
  {
  }

  // ---------- the video mask: c is masked content, p plain content, both from VIDEO_BASE on ----------

  /** The plain byte from 0x100 on, and the key that unmasks it: the plain byte 32 places before it. */
  function Tail(c: seq<bv8>, v1: Block, i: nat): bv8
    requires 0x100 <= i < |c|
    decreases i, 1
  {
    Xor(c[i], TailKey(c, v1, i))
  }

  function TailKey(c: seq<bv8>, v1: Block, i: nat): bv8
    requires 0x100 <= i < |c| + 0x20
    decreases i, 0
  {
    if i < 0x120 then v1[i % 0x20] else Xor(Tail(c, v1, i - 0x20), v1[i % 0x20])
  }

  /** The key of a byte below 0x100: the first mask and every plain byte 0x100 later in its column so far. */
  function HeadKey(p: seq<bv8>, v0: Block, i: nat): bv8
    requires i < 0x100 && |p| >= 0x200
    decreases i, 1
  {
    Xor(HeadRun(p, v0, i), p[0x100 + i])
  }

  /** The key column before the byte at i is mixed in. */
  function HeadRun(p: seq<bv8>, v0: Block, i: nat): bv8
    requires i < 0x120 && |p| >= 0x200
    decreases i, 0
  {
    if i < 0x20 then v0[i] else HeadKey(p, v0, i - 0x20)
  }

  function TailDecoded(c: seq<bv8>, v1: Block): (p: seq<bv8>)
    ensures |p| == |c|
  {
    seq(|c|, i requires 0 <= i < |c| => if i < 0x100 then c[i] else Tail(c, v1, i))
  }

  function HeadDecoded(t: seq<bv8>, v0: Block): (p: seq<bv8>)
    requires |t| >= 0x200
    ensures |p| == |t|
  {
    seq(|t|, i requires 0 <= i < |t| => if i < 0x100 then Xor(t[i], HeadKey(t, v0, i)) else t[i])
  }

  function Decoded(c: seq<bv8>, v0: Block, v1: Block): (p: seq<bv8>)
    ensures |p| == |c|
  {
    if |c| < 0x200 then c else HeadDecoded(TailDecoded(c, v1), v0)
  }

  /** The inverse reads plain bytes only, so it needs no running state. */
  function Encoded(p: seq<bv8>, v0: Block, v1: Block): (c: seq<bv8>)
    ensures |c| == |p|
  {
    if |p| < 0x200 then p else
      seq(|p|, i requires 0 <= i < |p| =>
        if i < 0x100 then Xor(p[i], HeadKey(p, v0, i))
        else Xor(p[i], if i < 0x120 then v1[i % 0x20] else Xor(p[i - 0x20], v1[i % 0x20])))
  }

  /** The head key looks at bytes from 0x100 on alone. */
  lemma {:induction false} HeadKeyDepends(p: seq<bv8>, q: seq<bv8>, v0: Block, i: nat)
    requires i < 0x100 && |p| == |q| >= 0x200 && forall k :: 0x100 <= k < |p| ==> p[k] == q[k]
    ensures HeadKey(p, v0, i) == HeadKey(q, v0, i)
  {
    if i >= 0x20 {
      HeadKeyDepends(p, q, v0, i - 0x20);
    }
  }

  lemma {:induction false} TailUndoes(p: seq<bv8>, v0: Block, v1: Block, i: nat)
    requires |p| >= 0x200 && 0x100 <= i < |p|
    ensures Tail(Encoded(p, v0, v1), v1, i) == p[i]
  {
    var key := if i < 0x120 then v1[i % 0x20] else Xor(p[i - 0x20], v1[i % 0x20]);
    if i >= 0x120 {
      TailUndoes(p, v0, v1, i - 0x20);
    }
    XorCancels(p[i], key);
  }

  /** Decoding undoes encoding. */
  lemma DecodeAfterEncode(p: seq<bv8>, v0: Block, v1: Block)
    ensures Decoded(Encoded(p, v0, v1), v0, v1) == p
  {
    hide Xor;
    var c := Encoded(p, v0, v1);
    if |p| >= 0x200 {
      var t := TailDecoded(c, v1);
      forall i | 0x100 <= i < |p| ensures t[i] == p[i] {
        TailUndoes(p, v0, v1, i);
      }
      forall i | 0 <= i < |p| ensures HeadDecoded(t, v0)[i] == p[i] {
        if i < 0x100 {
          HeadKeyDepends(t, p, v0, i);
          XorCancels(p[i], HeadKey(p, v0, i));
        }
      }
    }
  }

  /** Encoding undoes decoding, so the mask is a bijection on contents of every length. */
  lemma EncodeAfterDecode(c: seq<bv8>, v0: Block, v1: Block)
    ensures Encoded(Decoded(c, v0, v1), v0, v1) == c
  {
    hide Xor;
    if |c| >= 0x200 {
      var t := TailDecoded(c, v1);
      var p := Decoded(c, v0, v1);
      forall i | 0 <= i < |c| ensures Encoded(p, v0, v1)[i] == c[i] {
        if i < 0x100 {
          HeadKeyDepends(t, p, v0, i);
          XorCancels(c[i], HeadKey(t, v0, i));
        } else {
          XorCancels(c[i], TailKey(c, v1, i));
        }
      }
    }
  }

  /** The feedback equation beyond 0x100. */
  lemma Feedback(c: seq<bv8>, v0: Block, v1: Block, i: nat)
    requires |c| >= 0x200 && 0x100 <= i < |c|
    ensures var p := Decoded(c, v0, v1);
      p[i] == Xor(if i < 0x120 then c[i] else Xor(c[i], p[i - 0x20]), v1[i % 0x20])
  {
    hide Xor;
    assert Tail(c, v1, i) == Xor(c[i], TailKey(c, v1, i));
    if i >= 0x120 {
      XorMoves(c[i], Decoded(c, v0, v1)[i - 0x20], v1[i % 0x20]);
    }
  }

  /** A changed byte beyond 0x100 changes every later plain byte of its column, by the same difference. */
  lemma {:induction false} ErrorsSpread(c: seq<bv8>, d: seq<bv8>, v1: Block, at: nat, i: nat)
    requires |c| == |d| && 0x100 <= at <= i < |c| && (i - at) % 0x20 == 0
    requires forall k :: 0 <= k < |c| && k != at ==> c[k] == d[k]
    ensures Xor(Tail(c, v1, i), Tail(d, v1, i)) == Xor(c[at], d[at])
    decreases i
  {
    if i == at {
      if i >= 0x120 {
        TailBefore(c, d, v1, at, i - 0x20);
      }
      XorDifference(c[i], d[i], TailKey(c, v1, i));
    } else {
      assert i >= at + 0x20;
      ErrorsSpread(c, d, v1, at, i - 0x20);
      XorThrough(c[i], Tail(c, v1, i - 0x20), Tail(d, v1, i - 0x20), v1[i % 0x20]);
    }
  }

  lemma {:induction false} TailBefore(c: seq<bv8>, d: seq<bv8>, v1: Block, at: nat, i: nat)
    requires |c| == |d| && 0x100 <= i < at < |c|
    requires forall k :: 0 <= k < |c| && k != at ==> c[k] == d[k]
    ensures Tail(c, v1, i) == Tail(d, v1, i)
  {
    if i >= 0x120 {
      TailBefore(c, d, v1, at, i - 0x20);
    }
  }

  lemma XorDifference(a: bv8, b: bv8, k: bv8)
    ensures Xor(Xor(a, k), Xor(b, k)) == Xor(a, b)
  {
  }

  lemma XorThrough(a: bv8, x: bv8, y: bv8, k: bv8)
    ensures Xor(Xor(a, Xor(x, k)), Xor(a, Xor(y, k))) == Xor(x, y)
  {
  }

  // ---------- whole contents ----------

  function VideoDecoded(content: seq<bv8>, v0: Block, v1: Block): (r: seq<bv8>)
    ensures |r| == |content|
    ensures |content| < VIDEO_BASE + 0x200 ==> r == content
    ensures |content| >= VIDEO_BASE ==> r[..VIDEO_BASE] == content[..VIDEO_BASE]
  {
    if |content| < VIDEO_BASE then content
    else content[..VIDEO_BASE] + Decoded(content[VIDEO_BASE..], v0, v1)
  }

  function VideoEncoded(content: seq<bv8>, v0: Block, v1: Block): (r: seq<bv8>)
    ensures |r| == |content|
  {
    if |content| < VIDEO_BASE then content
    else content[..VIDEO_BASE] + Encoded(content[VIDEO_BASE..], v0, v1)
  }

  lemma VideoRoundTrips(content: seq<bv8>, v0: Block, v1: Block)
    ensures VideoDecoded(VideoEncoded(content, v0, v1), v0, v1) == content
    ensures VideoEncoded(VideoDecoded(content, v0, v1), v0, v1) == content
  {
    if |content| >= VIDEO_BASE {
      var rest := content[VIDEO_BASE..];
      DecodeAfterEncode(rest, v0, v1);
      EncodeAfterDecode(rest, v0, v1);
      hide Decoded, Encoded;
      assert VideoEncoded(content, v0, v1)[VIDEO_BASE..] == Encoded(rest, v0, v1);
      assert VideoDecoded(content, v0, v1)[VIDEO_BASE..] == Decoded(rest, v0, v1);
    }
  }

  /** Decodes a copy in place: first the tail, each plain byte becoming a key, then the head. */
  method MaskVideo(content: array<bv8>, vmask0: Block, vmask1: Block) returns (r: array<bv8>)
    ensures fresh(r) && r[..] == VideoDecoded(content[..], vmask0, vmask1)
  {
    hide Xor;
    r := new bv8[content.Length](i requires 0 <= i < content.Length reads content => content[i]);
    assert r[..] == content[..];
    if r.Length < VIDEO_BASE + 0x200 {
      return;
    }
    ghost var c := content[VIDEO_BASE..];
    var size := r.Length - VIDEO_BASE;
    UnmaskTail(r, vmask1);
    ghost var t := r[VIDEO_BASE..];
    assert t == TailDecoded(c, vmask1);
    UnmaskHead(r, vmask0);
    assert r[VIDEO_BASE..] == Decoded(c, vmask0, vmask1);
    assert r[..] == r[..VIDEO_BASE] + r[VIDEO_BASE..];
  }

  method UnmaskTail(r: array<bv8>, vmask1: Block)
    requires r.Length >= VIDEO_BASE + 0x200
    modifies r
    ensures r[..VIDEO_BASE] == old(r[..VIDEO_BASE])
    ensures r[VIDEO_BASE..] == TailDecoded(old(r[VIDEO_BASE..]), vmask1)
  {
    hide Xor, Tail, TailKey;
    ghost var c := r[VIDEO_BASE..];
    var size := r.Length - VIDEO_BASE;
    var mask := new bv8[0x20](i requires 0 <= i < 0x20 => vmask1[i]);
    TailStart(c, vmask1);
    for i := 0x100 to size
      invariant forall k :: 0 <= k < VIDEO_BASE + 0x100 || VIDEO_BASE + i <= k < r.Length ==> r[k] == old(r[k])
      invariant forall k :: 0x100 <= k < i ==> r[VIDEO_BASE + k] == Tail(c, vmask1, k)
      invariant forall k :: i <= k < i + 0x20 ==> mask[k % 0x20] == TailKey(c, vmask1, k)
    {
      TailStep(c, vmask1, i);
      r[VIDEO_BASE + i] := Xor(r[VIDEO_BASE + i], mask[i % 0x20]);
      mask[i % 0x20] := Xor(r[VIDEO_BASE + i], vmask1[i % 0x20]);
    }
  }

  lemma TailStart(c: seq<bv8>, v1: Block)
    requires |c| >= 0x200
    ensures forall k :: 0x100 <= k < 0x120 ==> TailKey(c, v1, k) == v1[k % 0x20]
  {
  }

  lemma TailStep(c: seq<bv8>, v1: Block, i: nat)
    requires 0x100 <= i < |c|
    ensures Tail(c, v1, i) == Xor(c[i], TailKey(c, v1, i))
    ensures TailKey(c, v1, i + 0x20) == Xor(Tail(c, v1, i), v1[i % 0x20])
  {
  }

  lemma HeadStart(t: seq<bv8>, v0: Block)
    requires |t| >= 0x200
    ensures forall k :: 0 <= k < 0x20 ==> HeadRun(t, v0, k) == v0[k % 0x20]
  {
  }

  lemma HeadStep(t: seq<bv8>, v0: Block, i: nat)
    requires i < 0x100 && |t| >= 0x200
    ensures HeadKey(t, v0, i) == Xor(HeadRun(t, v0, i), t[0x100 + i]) == HeadRun(t, v0, i + 0x20)
  {
  }

  method UnmaskHead(r: array<bv8>, vmask0: Block)
    requires r.Length >= VIDEO_BASE + 0x200
    modifies r
    ensures r[..VIDEO_BASE] == old(r[..VIDEO_BASE])
    ensures r[VIDEO_BASE..] == HeadDecoded(old(r[VIDEO_BASE..]), vmask0)
  {
    hide Xor, HeadKey, HeadRun;
    HeadStart(old(r[VIDEO_BASE..]), vmask0);
    ghost var t := r[VIDEO_BASE..];
    var mask := new bv8[0x20](i requires 0 <= i < 0x20 => vmask0[i]);
    for i := 0 to 0x100
      invariant forall k :: 0 <= k < VIDEO_BASE || VIDEO_BASE + i <= k < r.Length ==> r[k] == old(r[k])
      invariant forall k :: 0 <= k < i ==> r[VIDEO_BASE + k] == Xor(t[k], HeadKey(t, vmask0, k))
      invariant forall k :: i <= k < i + 0x20 ==>
        mask[k % 0x20] == HeadRun(t, vmask0, k)
    {
      HeadStep(t, vmask0, i);
      mask[i % 0x20] := Xor(mask[i % 0x20], r[0x100 + VIDEO_BASE + i]);
      r[VIDEO_BASE + i] := Xor(r[VIDEO_BASE + i], mask[i % 0x20]);
    }
  }

  // ---------- the audio mask ----------

  function AudioDecoded(content: seq<bv8>, amask: Block): (r: seq<bv8>)
    ensures |r| == |content|
  {
    seq(|content|, i requires 0 <= i < |content| =>
      if i < AUDIO_BASE then content[i] else Xor(content[i], amask[(i - AUDIO_BASE) % 0x20]))
  }

  lemma AudioSelfInverse(content: seq<bv8>, amask: Block)
    ensures AudioDecoded(AudioDecoded(content, amask), amask) == content
  {
    hide Xor;
    forall i | AUDIO_BASE <= i < |content|
      ensures AudioDecoded(AudioDecoded(content, amask), amask)[i] == content[i]
    {
      XorCancels(content[i], amask[(i - AUDIO_BASE) % 0x20]);
    }
  }

  method MaskAudio(content: array<bv8>, amask: Block) returns (r: array<bv8>)
    ensures fresh(r) && r[..] == AudioDecoded(content[..], amask)
  {
    hide Xor;
    r := new bv8[content.Length](i requires 0 <= i < content.Length reads content => content[i]);
    if r.Length <= AUDIO_BASE {
      return;
    }
    for i := 0 to r.Length - AUDIO_BASE
      invariant forall k :: 0 <= k < AUDIO_BASE || AUDIO_BASE + i <= k < r.Length ==> r[k] == content[k]
      invariant forall k :: AUDIO_BASE <= k < AUDIO_BASE + i ==> r[k] == AudioDecoded(content[..], amask)[k]
    {
      r[AUDIO_BASE + i] := Xor(r[AUDIO_BASE + i], amask[i % 0x20]);
    }
  }

  // ---------- the masks of a key ----------

  /** The 64-bit key as its eight bytes, least significant first. */
  type Key = k: seq<bv8> | |k| == 8 witness seq(8, _ => 0)

  function Low(x: bv8): bv8 { x & 0xF }
  function Seed3(x: bv8): bv8 { x - 0x34 }
  function Seed4(x: bv8): bv8 { x + 0xF9 }
  function Seed5(x: bv8): bv8 { x ^ 0x13 }
  function Seed6(x: bv8): bv8 { x + 0x61 }

  /** The bytes taken from the key: the high half of byte 4 and all of byte 7 are not among them. */
  function MaskSeeds(k: Key): (t: seq<bv8>)
    ensures |t| == 7
  {
    [k[0], k[1], k[2], Seed3(k[3]), Seed4(Low(k[4])), Seed5(k[5]), Seed6(k[6])]
  }

  // Arithmetic on bytes drops the carry.

  function Sum(x: bv8, y: bv8): bv8 { x + y }

  function Difference(x: bv8, y: bv8): bv8 { x - y }

  function Mixed(x: bv8, y: bv8): bv8 { x ^ y }

  // The other 25 bytes come from earlier ones.

  function Slots7(t: seq<bv8>): (r: seq<bv8>)
    requires |t| == 7
    ensures |r| == 9
  {
    var t7 := Mixed(t[0], 0xFF);
    var t8, t9, tA, tB := Sum(t[2], t[1]), Difference(t[1], t7), Mixed(t[2], 0xFF), Mixed(t[1], 0xFF);
    var tC, tD, tF := Sum(tB, t9), Difference(t8, t[3]), Difference(tA, tB);
    [t7, t8, t9, tA, tB, tC, tD, Mixed(tD, 0xFF), tF]
  }

  function Slots16(t: seq<bv8>): (r: seq<bv8>)
    requires |t| == 0x10
    ensures |r| == 8
  {
    var t10, t13 := Difference(t[0x08], t[0x0F]), Mixed(t[0x03], 0x10);
    [t10, Mixed(t10, t[0x07]), Mixed(t[0x0F], 0xFF), t13, Difference(t[0x04], 0x32), Sum(t[0x05], 0xED),
     Mixed(t[0x06], 0xF3), Difference(t13, t[0x0F])]
  }

  function Slots24(t: seq<bv8>): (r: seq<bv8>)
    requires |t| == 0x18
    ensures |r| == 8
  {
    var t1D := Sum(t[0x03], t[0x04]);
    [Sum(t[0x15], t[0x07]), Difference(0x21, t[0x13]), Mixed(t[0x14], t[0x17]), Sum(t[0x16], t[0x16]), Sum(t[0x17], 0x44),
     t1D, Difference(t[0x05], t[0x16]), Mixed(t1D, t[0x13])]
  }

  /** The 32 bytes both masks are made of. */
  function MaskTable(k: Key): (t: Block)
  {
    var a := MaskSeeds(k);
    var b := a + Slots7(a);
    var c := b + Slots16(b);
    c + Slots24(c)
  }

  /** Two keys give the same masks exactly when they agree but for the top byte and the high half of byte 4. */
  lemma SameMasks(k: Key, l: Key)
    ensures MaskTable(k) == MaskTable(l) <==>
      (forall i :: 0 <= i < 7 && i != 4 ==> k[i] == l[i]) && Low(k[4]) == Low(l[4])
  {
    hide Slots7, Slots16, Slots24, Low, Seed3, Seed4, Seed5, Seed6;
    SeedsInjective(k[3], l[3], Low(k[4]), Low(l[4]), k[5], l[5], k[6], l[6]);
    var s, z := MaskSeeds(k), MaskSeeds(l);
    if MaskTable(k) == MaskTable(l) {
      assert s == MaskTable(k)[..7] && z == MaskTable(l)[..7];
      assert s[0] == z[0] && s[1] == z[1] && s[2] == z[2] && s[3] == z[3] && s[4] == z[4] && s[5] == z[5] && s[6] == z[6];
    }
  }

  lemma SeedsInjective(a: bv8, b: bv8, c: bv8, d: bv8, e: bv8, f: bv8, g: bv8, h: bv8)
    ensures Seed3(a) == Seed3(b) ==> a == b
    ensures Seed4(c) == Seed4(d) ==> c == d
    ensures Seed5(e) == Seed5(f) ==> e == f
    ensures Seed6(g) == Seed6(h) ==> g == h
  {
  }

  /** The audio mask: letters on odd places, the complement of the table on even ones. */
  function AudioMask(t: Block): Block
  {
    seq(0x20, i requires 0 <= i < 0x20 => if i % 2 != 0 then Letters()[i / 2 % 4] else t[i] ^ 0xFF)
  }

  function Letters(): seq<bv8> { [0x55, 0x52, 0x55, 0x43] }

  /** The masks of one key, whose bytes all count. */
  lemma KnownMasks()
    ensures MaskTable([0xEF, 0xCD, 0xAB, 0x89, 0x67, 0x45, 0x23, 0x01])
         == [0xEF, 0xCD, 0xAB, 0x55, 0x00, 0x56, 0x84, 0x10, 0x78, 0xBD, 0x54, 0x32, 0xEF, 0x23, 0xDC, 0x22,
             0x56, 0x46, 0xDD, 0x45, 0xCE, 0x43, 0x77, 0x23, 0x53, 0xDC, 0xED, 0xEE, 0x67, 0x55, 0xDF, 0x10]
    ensures AudioMask(MaskTable([0xEF, 0xCD, 0xAB, 0x89, 0x67, 0x45, 0x23, 0x01]))[..8]
         == [0x10, 0x55, 0x54, 0x52, 0xFF, 0x55, 0x7B, 0x43]
  {
    hide *;
    var k: Key := [0xEF, 0xCD, 0xAB, 0x89, 0x67, 0x45, 0x23, 0x01];
    var a: seq<bv8> := [0xEF, 0xCD, 0xAB, 0x55, 0x00, 0x56, 0x84];
    var b: seq<bv8> := [0x10, 0x78, 0xBD, 0x54, 0x32, 0xEF, 0x23, 0xDC, 0x22];
    var c: seq<bv8> := [0x56, 0x46, 0xDD, 0x45, 0xCE, 0x43, 0x77, 0x23];
    var d: seq<bv8> := [0x53, 0xDC, 0xED, 0xEE, 0x67, 0x55, 0xDF, 0x10];
    KnownSeeds(k, a);
    Known7(a, b);
    Known16(a + b, c);
    Known24(a + b + c, d);
    TableOf(k, a, b, c, d);
    KnownAudio(a + b + c + d);
  }

  lemma KnownSeeds(k: Key, a: seq<bv8>)
    requires k == [0xEF, 0xCD, 0xAB, 0x89, 0x67, 0x45, 0x23, 0x01] && a == [0xEF, 0xCD, 0xAB, 0x55, 0x00, 0x56, 0x84]
    ensures MaskSeeds(k) == a
  {
  }

  lemma Known7(a: seq<bv8>, b: seq<bv8>)
    requires a == [0xEF, 0xCD, 0xAB, 0x55, 0x00, 0x56, 0x84]
    requires b == [0x10, 0x78, 0xBD, 0x54, 0x32, 0xEF, 0x23, 0xDC, 0x22]
    ensures Slots7(a) == b
  {
  }

  lemma Known16(ab: seq<bv8>, c: seq<bv8>)
    requires ab == [0xEF, 0xCD, 0xAB, 0x55, 0x00, 0x56, 0x84, 0x10, 0x78, 0xBD, 0x54, 0x32, 0xEF, 0x23, 0xDC, 0x22]
    requires c == [0x56, 0x46, 0xDD, 0x45, 0xCE, 0x43, 0x77, 0x23]
    ensures Slots16(ab) == c
  {
  }

  lemma Known24(abc: seq<bv8>, d: seq<bv8>)
    requires abc == [0xEF, 0xCD, 0xAB, 0x55, 0x00, 0x56, 0x84, 0x10, 0x78, 0xBD, 0x54, 0x32, 0xEF, 0x23, 0xDC, 0x22,
                     0x56, 0x46, 0xDD, 0x45, 0xCE, 0x43, 0x77, 0x23]
    requires d == [0x53, 0xDC, 0xED, 0xEE, 0x67, 0x55, 0xDF, 0x10]
    ensures Slots24(abc) == d
  {
  }

  lemma TableOf(k: Key, a: seq<bv8>, b: seq<bv8>, c: seq<bv8>, d: seq<bv8>)
    requires |a| == 7 && |b| == 9 && |c| == 8 && |d| == 8
    requires MaskSeeds(k) == a && Slots7(a) == b && Slots16(a + b) == c && Slots24(a + b + c) == d
    ensures MaskTable(k) == a + b + c + d
  {
    hide MaskSeeds, Slots7, Slots16, Slots24;
  }

  lemma KnownAudio(t: seq<bv8>)
    requires |t| == 0x20 && t[0] == 0xEF && t[2] == 0xAB && t[4] == 0x00 && t[6] == 0x84
    ensures AudioMask(t)[..8] == [0x10, 0x55, 0x54, 0x52, 0xFF, 0x55, 0x7B, 0x43]
  {
  }

  lemma Slots7Are(before: seq<bv8>, t: seq<bv8>)
    requires |before| == |t| == 0x20 && forall k :: 0 <= k < 7 ==> t[k] == before[k]
    requires t[0x07] == Mixed(t[0x00], 0xFF) && t[0x08] == Sum(t[0x02], t[0x01])
    requires t[0x09] == Difference(t[0x01], t[0x07]) && t[0x0A] == Mixed(t[0x02], 0xFF)
    requires t[0x0B] == Mixed(t[0x01], 0xFF) && t[0x0C] == Sum(t[0x0B], t[0x09])
    requires t[0x0D] == Difference(t[0x08], t[0x03]) && t[0x0E] == Mixed(t[0x0D], 0xFF)
    requires t[0x0F] == Difference(t[0x0A], t[0x0B])
    ensures t[..0x10] == before[..7] + Slots7(before[..7])
  {
    hide Sum, Difference, Mixed;
  }

  lemma Slots16Are(before: seq<bv8>, t: seq<bv8>)
    requires |before| == |t| == 0x20 && forall k :: 0 <= k < 0x10 ==> t[k] == before[k]
    requires t[0x10] == Difference(t[0x08], t[0x0F]) && t[0x11] == Mixed(t[0x10], t[0x07])
    requires t[0x12] == Mixed(t[0x0F], 0xFF) && t[0x13] == Mixed(t[0x03], 0x10)
    requires t[0x14] == Difference(t[0x04], 0x32) && t[0x15] == Sum(t[0x05], 0xED)
    requires t[0x16] == Mixed(t[0x06], 0xF3) && t[0x17] == Difference(t[0x13], t[0x0F])
    ensures t[..0x18] == before[..0x10] + Slots16(before[..0x10])
  {
    hide Sum, Difference, Mixed;
  }

  lemma Slots24Are(before: seq<bv8>, t: seq<bv8>)
    requires |before| == |t| == 0x20 && forall k :: 0 <= k < 0x18 ==> t[k] == before[k]
    requires t[0x18] == Sum(t[0x15], t[0x07]) && t[0x19] == Difference(0x21, t[0x13])
    requires t[0x1A] == Mixed(t[0x14], t[0x17]) && t[0x1B] == Sum(t[0x16], t[0x16])
    requires t[0x1C] == Sum(t[0x17], 0x44) && t[0x1D] == Sum(t[0x03], t[0x04])
    requires t[0x1E] == Difference(t[0x05], t[0x16]) && t[0x1F] == Mixed(t[0x1D], t[0x13])
    ensures t[..0x20] == before[..0x18] + Slots24(before[..0x18])
  {
    hide Sum, Difference, Mixed;
  }

  // The table is filled slot by slot, every slot from earlier ones.

  method FillSeeds(t: array<bv8>, key: Key)
    requires t.Length == 0x20
    modifies t
    ensures t[..7] == MaskSeeds(key)
  {
    hide Seed3, Seed4, Seed5, Seed6, Low;
    t[0x00] := key[0];
    t[0x01] := key[1];
    t[0x02] := key[2];
    t[0x03] := Seed3(key[3]);
    t[0x04] := Seed4(Low(key[4]));
    t[0x05] := Seed5(key[5]);
    t[0x06] := Seed6(key[6]);
  }

  method FillFrom7(t: array<bv8>)
    requires t.Length == 0x20
    modifies t
    ensures t[..0x10] == old(t[..7]) + Slots7(old(t[..7]))
  {
    ghost var before := t[..];
    hide Sum, Difference, Mixed, Slots7;
    t[0x07] := Mixed(t[0x00], 0xFF);
    t[0x08] := Sum(t[0x02], t[0x01]);
    t[0x09] := Difference(t[0x01], t[0x07]);
    t[0x0A] := Mixed(t[0x02], 0xFF);
    t[0x0B] := Mixed(t[0x01], 0xFF);
    t[0x0C] := Sum(t[0x0B], t[0x09]);
    t[0x0D] := Difference(t[0x08], t[0x03]);
    t[0x0E] := Mixed(t[0x0D], 0xFF);
    t[0x0F] := Difference(t[0x0A], t[0x0B]);
    Slots7Are(before, t[..]);
  }

  method FillFrom16(t: array<bv8>)
    requires t.Length == 0x20
    modifies t
    ensures t[..0x18] == old(t[..0x10]) + Slots16(old(t[..0x10]))
  {
    ghost var before := t[..];
    hide Sum, Difference, Mixed, Slots16;
    t[0x10] := Difference(t[0x08], t[0x0F]);
    t[0x11] := Mixed(t[0x10], t[0x07]);
    t[0x12] := Mixed(t[0x0F], 0xFF);
    t[0x13] := Mixed(t[0x03], 0x10);
    t[0x14] := Difference(t[0x04], 0x32);
    t[0x15] := Sum(t[0x05], 0xED);
    t[0x16] := Mixed(t[0x06], 0xF3);
    t[0x17] := Difference(t[0x13], t[0x0F]);
    Slots16Are(before, t[..]);
  }

  method FillFrom24(t: array<bv8>)
    requires t.Length == 0x20
    modifies t
    ensures t[..] == old(t[..0x18]) + Slots24(old(t[..0x18]))
  {
    ghost var before := t[..];
    hide Sum, Difference, Mixed, Slots24;
    t[0x18] := Sum(t[0x15], t[0x07]);
    t[0x19] := Difference(0x21, t[0x13]);
    t[0x1A] := Mixed(t[0x14], t[0x17]);
    t[0x1B] := Sum(t[0x16], t[0x16]);
    t[0x1C] := Sum(t[0x17], 0x44);
    t[0x1D] := Sum(t[0x03], t[0x04]);
    t[0x1E] := Difference(t[0x05], t[0x16]);
    t[0x1F] := Mixed(t[0x1D], t[0x13]);
    Slots24Are(before, t[..]);
  }

  /** The table, then the three masks. */
  method GetMask(key: Key) returns (vmask0: Block, vmask1: Block, amask: Block)
    ensures vmask0 == MaskTable(key)
    ensures forall i :: 0 <= i < 0x20 ==> vmask1[i] == vmask0[i] ^ 0xFF
    ensures amask == AudioMask(vmask0)
  {
    hide Slots7, Slots16, Slots24, MaskSeeds;
    var t := new bv8[0x20];
    FillSeeds(t, key);
    FillFrom7(t);
    FillFrom16(t);
    FillFrom24(t);
    ghost var table: Block := t[..];
    assert table == MaskTable(key);
    hide MaskTable;
    var v0, v1, a := new bv8[0x20], new bv8[0x20], new bv8[0x20];
    for i := 0 to 0x20
      invariant t[..] == table
      invariant forall k :: 0 <= k < i ==> v0[k] == table[k] && v1[k] == table[k] ^ 0xFF && a[k] == AudioMask(table)[k]
    {
      v0[i] := t[i];
      v1[i] := t[i] ^ 0xFF;
      a[i] := if i % 2 != 0 then Letters()[i / 2 % 4] else t[i] ^ 0xFF;
    }
    vmask0, vmask1, amask := v0[..], v1[..], a[..];
    assert vmask0 == table;
  }
}

/**
  AFS2 archives: alignment computed in floating point, the archive's directory, and the
  round trip from files to archive bytes and back by cue id.
 */
module Afs {
  import opened Bytes
  import opened Common
  import opened Streams


  // ---------- rounding up, in floating point ----------

  function RoundUp(a: nat, n: nat): nat
    requires a > 0
  {
    (if n % a == 0 then n / a else n / a + 1) * a
  }

  /**
    All that is used of float64 division: a quotient that is an integer is exact, any other
    has a relative error of at most 2^-53.
   */
  ghost predicate IsFloatDivision(divide: (nat, nat) -> real)
  {
    forall n: nat, a: nat :: n < WORD32 && 0 < a < WORD32 ==> NearQuotient(n, a, divide(n, a))
  }

  ghost predicate NearQuotient(n: nat, a: nat, d: real)
    requires a > 0
  {
    (n % a == 0 ==> d == (n / a) as real)
    && -(n as real) <= (Multiple(d, a) - n as real) * 9007199254740992.0 <= n as real
  }

  function Multiple(d: real, a: nat): real { d * a as real }

  function Ceil(x: real): int { if x.Floor as real == x then x.Floor else x.Floor + 1 }

  lemma MultipleMonotone(d: real, e: real, a: nat)
    requires a > 0
    ensures d < e <==> Multiple(d, a) < Multiple(e, a)
  {
    var r := a as real;
    if d < e {
      assert (e - d) * r > 0.0;
    } else {
      assert (d - e) * r >= 0.0;
      assert (d - e) * r == d * r - e * r;
    }
  }

  /** The rounding error is always smaller than the distance to the next integer. */
  lemma CeilIsExact(n: nat, a: nat, d: real)
    requires n < WORD32 && 0 < a < WORD32 && NearQuotient(n, a, d)
    ensures Ceil(d) == if n % a == 0 then n / a else n / a + 1
  {
    if n % a != 0 {
      var q := n / a;
      assert n == q * a + n % a;
      MultipleInteger(q, a);
      MultipleInteger(q + 1, a);
      assert (q + 1) * a == q * a + a;
      hide Multiple;
      MultipleMonotone(q as real, d, a);
      MultipleMonotone(d, (q + 1) as real, a);
      assert (q as real) < d < (q + 1) as real;
      assert d.Floor == q;
    }
  }

  lemma MultipleInteger(q: nat, a: nat)
    ensures Multiple(q as real, a) == (q * a) as real
  {
  }

  /** 32-bit arithmetic around the rounded quotient; alignment 0 gives 0 whatever the division gives. */
  function Align(divide: (nat, nat) -> real, alignment: nat, offset: nat): nat
  {
    if alignment == 0 then 0 else Ceil(divide(offset, alignment)) % WORD32 * alignment % WORD32
  }

  /** Align is the integer round-up modulo 2^32, so it is the round-up exactly when that fits. */
  lemma AlignRoundsUp(divide: (nat, nat) -> real, alignment: nat, offset: nat)
    requires IsFloatDivision(divide) && 0 < alignment < WORD32 && offset < WORD32
    ensures Align(divide, alignment, offset) == RoundUp(alignment, offset) % WORD32
    ensures Align(divide, alignment, offset) == RoundUp(alignment, offset) <==> RoundUp(alignment, offset) < WORD32
  {
    CeilIsExact(offset, alignment, divide(offset, alignment));
    CeilFits(offset, alignment);
    hide Ceil;
    var c := if offset % alignment == 0 then offset / alignment else offset / alignment + 1;
    assert c % WORD32 == c;
    assert RoundUp(alignment, offset) == c * alignment;
  }

  lemma CeilFits(n: nat, a: nat)
    requires 0 < a && n < WORD32
    ensures n / a <= n && (n % a != 0 ==> n / a < WORD32 - 1)
  {
    var q, r := n / a, n % a;
    QuotientBounds(n, a, q, r);
  }

  lemma QuotientBounds(n: nat, a: nat, q: int, r: int)
    requires 0 < a && n == q * a + r && 0 <= q && 0 <= r < a
    ensures q <= n && (r > 0 ==> q < n)
  {
    assert q * a == q + q * (a - 1);
    assert q * (a - 1) >= 0;
  }

  // ---------- the directory of an archive ----------

  const MAGIC: nat := 0x4146_5332

  datatype Entry = Entry(cueID: nat, offset: nat, size: nat)

  /** Where the i-th item of a table of w-byte numbers starts; other widths are not read at all. */
  function Place(i: nat, w: nat): nat { if w == 2 then 2 * i else if w == 4 then 4 * i else 0 }

  /** A number in the archive; whatever lies beyond its end reads as zero. */
  function NumberAt(data: seq<byte>, at: nat, k: nat): (v: nat)
    ensures v < Scale(k)
  {
    if at + k <= |data| then LittleValue(data[at..at + k]) else 0
  }

  function ItemAt(data: seq<byte>, start: nat, i: nat, w: nat): (v: nat)
    ensures v < WORD32
  {
    Scales();
    if w == 2 then NumberAt(data, start + Place(i, w), 2) else if w == 4 then NumberAt(data, start + Place(i, w), 4) else 0
  }

  datatype Directory = Directory(count: nat, alignment: nat, idSize: nat, offsetSize: nat)
  {
    function Offsets(): nat { 0x10 + Place(count, idSize) }
  }

  function DirectoryOf(data: seq<byte>): (d: Directory)
    ensures d.alignment < WORD32 && d.count < WORD32
  {
    Scales();
    Directory(NumberAt(data, 8, 4), NumberAt(data, 12, 4), NumberAt(data, 6, 1), NumberAt(data, 5, 1))
  }

  function EntryAt(divide: (nat, nat) -> real, data: seq<byte>, i: nat): Entry
  {
    var d := DirectoryOf(data);
    var offset := Align(divide, d.alignment, ItemAt(data, d.Offsets(), i, d.offsetSize));
    Entry(ItemAt(data, 0x10, i, d.idSize), offset, (ItemAt(data, d.Offsets(), i + 1, d.offsetSize) - offset) % WORD32)
  }

  /** The entries of an archive, none when the magic is wrong. */
  function Entries(divide: (nat, nat) -> real, data: seq<byte>): Option<seq<Entry>>
  {
    if |data| < 4 || BigValue(data[..4]) != MAGIC then None
    else Some(seq(DirectoryOf(data).count, i requires 0 <= i => EntryAt(divide, data, i)))
  }

  /** The stream stands at place, or both are at or beyond its end. */
  predicate Near(data: seq<byte>, pos: nat, place: nat)
  {
    pos == place || (|data| <= pos && |data| < place)
  }

  /** One number of a table; nothing is read for an unknown width. */
  method ReadItem(reader: Reader, ghost start: nat, w: nat, ghost i: nat) returns (item: nat)
    requires Near(reader.Data(), reader.Pos(), start + Place(i, w))
    modifies reader.Repr()
    ensures item == ItemAt(reader.Data(), start, i, w) && Near(reader.Data(), reader.Pos(), start + Place(i + 1, w))
  {
    hide Reader.Data, Reader.Pos, Reader.Repr, LittleValue;
    item := 0;
    if w == 2 {
      var v, ok := reader.ReadLittle(2);
      item := v;
    } else if w == 4 {
      var v, ok := reader.ReadLittle(4);
      item := v;
    }
  }

  /** Numbers of a table, read one after the other. */
  method ReadItems(reader: Reader, ghost start: nat, w: nat, n: nat) returns (items: seq<nat>)
    requires Near(reader.Data(), reader.Pos(), start)
    modifies reader.Repr()
    ensures |items| == n && forall i :: 0 <= i < n ==> items[i] == ItemAt(reader.Data(), start, i, w)
    ensures Near(reader.Data(), reader.Pos(), start + Place(n, w))
  {
    var values := new nat[n];
    assert values !in reader.Repr() && Place(0, w) == 0;
    hide Reader.Data, Reader.Pos, Reader.Repr, ItemAt, Near, Place;
    for i := 0 to n
      invariant Near(reader.Data(), reader.Pos(), start + Place(i, w))
      invariant forall k :: 0 <= k < i ==> values[k] == ItemAt(reader.Data(), start, k, w)
    {
      values[i] := ReadItem(reader, start, w, i);
    }
    items := values[..];
  }

  class AFSArchive {
    const reader: Reader
    const files: seq<Entry>

    constructor (reader: Reader, files: seq<Entry>)
      ensures this.reader == reader && this.files == files
    {
      this.reader := reader;
      this.files := files;
    }

    /** The file of a cue id; the first file when the archive has no such id but starts with id 0. */
    method FileDataForCueID(cueID: int) returns (r: Option<seq<byte>>)
      modifies reader.Repr()
      ensures r == Lookup(reader.Data(), files, cueID)
      ensures reader.Pos() == old(reader.Pos())
    {
      var i := 0;
      while i < |files|
        invariant 0 <= i <= |files| && reader.Pos() == old(reader.Pos())
        invariant FirstWith(files, cueID, 0) == FirstWith(files, cueID, i)
      {
        if files[i].cueID == cueID {
          r := reader.ReadBytesAt(files[i].size, files[i].offset);
          return;
        }
        i := i + 1;
      }
      if |files| > 0 && files[0].cueID == 0 {
        r := reader.ReadBytesAt(files[0].size, files[0].offset);
        return;
      }
      r := None;
    }
  }

  function FirstWith(files: seq<Entry>, cueID: int, i: nat): (k: nat)
    requires i <= |files|
    ensures i <= k <= |files| && (k < |files| ==> files[k].cueID == cueID)
    ensures forall j :: i <= j < k ==> files[j].cueID != cueID
    decreases |files| - i
  {
    if i == |files| || files[i].cueID == cueID then i else FirstWith(files, cueID, i + 1)
  }

  function Lookup(data: seq<byte>, files: seq<Entry>, cueID: int): Option<seq<byte>>
  {
    var k := FirstWith(files, cueID, 0);
    if k < |files| then BytesAt(data, files[k].offset, files[k].size)
    else if |files| > 0 && files[0].cueID == 0 then BytesAt(data, files[0].offset, files[0].size)
    else None
  }

  /** Read errors after the magic are ignored: missing numbers are zero. */
  method ReadDirectory(reader: Reader) returns (d: Option<Directory>)
    requires reader.Pos() == 0
    modifies reader.Repr()
    ensures var data := reader.Data();
      d == if |data| < 4 || BigValue(data[..4]) != MAGIC then None else Some(DirectoryOf(data))
  {
    Scales();
    hide LittleValue, BigValue, Scale, Reader.Data, Reader.Pos, Reader.Repr;
    var magic, ok := reader.ReadBig(4);
    if !ok || magic != MAGIC {
      return None;
    }
    var version, _ := reader.ReadBytes(4);
    var fileCount, _ := reader.ReadLittle(4);
    var alignment, _ := reader.ReadLittle(4);
    SingleByte(reader.Data(), 5);
    SingleByte(reader.Data(), 6);
    d := Some(Directory(fileCount, alignment, version[2], version[1]));
  }

  method NewAFSArchive(divide: (nat, nat) -> real, reader: Reader) returns (archive: Option<AFSArchive>)
    requires reader.Pos() == 0
    modifies reader.Repr()
    ensures archive.Some? == Entries(divide, reader.Data()).Some?
    ensures archive.Some? ==>
      archive.value.reader == reader && Some(archive.value.files) == Entries(divide, reader.Data())
  {
    hide Align, LittleValue, BigValue, DirectoryOf, Reader.Data, Reader.Pos, Reader.Repr;
    var directory := ReadDirectory(reader);
    if directory.None? {
      return None;
    }
    var Directory(fileCount, alignment, cueIDSize, offsetSize) := directory.value;
    ghost var d := directory.value;
    reader.SeekStart(0x10);
    var cueIDs := ReadItems(reader, 0x10, cueIDSize, fileCount);
    var offsets := ReadItems(reader, d.Offsets(), offsetSize, fileCount + 1);
    var files := new Entry[fileCount](_ => Entry(0, 0, 0));
    for i := 0 to fileCount
      invariant forall k :: 0 <= k < i ==> files[k] == EntryAt(divide, reader.Data(), k)
    {
      var alignedOffset := Align(divide, alignment, offsets[i]);
      files[i] := Entry(cueIDs[i], alignedOffset, (offsets[i + 1] - alignedOffset) % WORD32);
    }
    assert files[..] == Entries(divide, reader.Data()).value;
    var a := new AFSArchive(reader, files[..]);
    archive := Some(a);
  }

  lemma SingleByte(data: seq<byte>, at: nat)
    ensures NumberAt(data, at, 1) == if at < |data| then data[at] else 0
  {
    if at < |data| {
      assert data[at..at + 1] == [data[at]];
      assert LittleValue([data[at]]) == data[at] + 256 * LittleValue([]);
    }
  }

  // ---------- writing an archive ----------

  datatype File = File(cueID: nat, payload: seq<byte>)

  /** The layout of an archive: its files, and the choices of the writer. */
  datatype Layout = Layout(files: seq<File>, alignment: nat, idSize: nat, offsetSize: nat)
  {
    function Start(): nat { 0x10 + Place(|files|, idSize) + Place(|files| + 1, offsetSize) }

    /** Where the first i payloads end; the next one starts at the next multiple of the alignment. */
    function End(i: nat): nat
      requires i <= |files| && alignment > 0
    {
      if i == 0 then Start() else RoundUp(alignment, End(i - 1)) + |files[i - 1].payload|
    }

    /** What the format itself demands of a writer. */
    predicate Valid()
    {
      0 < alignment < WORD32 && idSize in {2, 4} && offsetSize in {2, 4} && |files| < WORD32
      && End(|files|) < Scale(offsetSize)
      && (forall i :: 0 <= i < |files| ==> files[i].cueID < Scale(idSize))
      && (forall i, j :: 0 <= i < j < |files| ==> files[i].cueID != files[j].cueID)
    }

    function Header(): (h: seq<byte>)
      requires Valid()
      ensures |h| == 0x10
    {
      [0x41, 0x46, 0x53, 0x32, 1, offsetSize, idSize, 0] + LittleBytes(|files|, 4) + LittleBytes(alignment, 4)
    }

    function Ids(): seq<nat> { seq(|files|, i requires 0 <= i < |files| => files[i].cueID) }

    function Ends(): seq<nat>
      requires alignment > 0
    {
      seq(|files| + 1, i requires 0 <= i <= |files| => End(i))
    }

    /** The archive up to the end of the first i payloads. */
    function Bytes(i: nat): seq<byte>
      requires Valid() && i <= |files|
    {
      if i == 0 then Header() + Numbers(Ids(), idSize) + Numbers(Ends(), offsetSize)
      else
        RoundUpAbove(alignment, End(i - 1));
        Bytes(i - 1) + seq(RoundUp(alignment, End(i - 1)) - End(i - 1), _ => 0) + files[i - 1].payload
    }
  }

  function Numbers(vs: seq<nat>, w: nat): (s: seq<byte>)
    requires w == 2 || w == 4
    ensures |s| == Place(|vs|, w)
  {
    if vs == [] then [] else Numbers(vs[..|vs| - 1], w) + LittleBytes(vs[|vs| - 1], w)
  }

  lemma RoundUpAbove(a: nat, n: nat)
    requires a > 0
    ensures RoundUp(a, n) >= n
  {
    assert n == n / a * a + n % a;
    assert (n / a + 1) * a == n / a * a + a;
  }

  lemma {:induction false} NumbersHold(vs: seq<nat>, w: nat, i: nat)
    requires (w == 2 || w == 4) && i < |vs|
    ensures Holds(Numbers(vs, w), Place(i, w), LittleBytes(vs[i], w))
  {
    var last := LittleBytes(vs[|vs| - 1], w);
    var before := Numbers(vs[..|vs| - 1], w);
    if i == |vs| - 1 {
      HoldsInside(before, last, []);
      assert before + last + [] == Numbers(vs, w);
    } else {
      NumbersHold(vs[..|vs| - 1], w, i);
      HoldsExtended(before, Place(i, w), LittleBytes(vs[i], w), last);
    }
  }

  lemma {:induction false} BytesEnd(l: Layout, i: nat)
    requires l.Valid() && i <= |l.files|
    ensures |l.Bytes(i)| == l.End(i)
  {
    if i > 0 {
      BytesEnd(l, i - 1);
      RoundUpAbove(l.alignment, l.End(i - 1));
    }
  }

  /** What is written stays where it is while more is written. */
  lemma {:induction false} BytesKeep(l: Layout, i: nat, j: nat, at: nat, field: seq<byte>)
    requires l.Valid() && i <= j <= |l.files| && Holds(l.Bytes(i), at, field)
    ensures Holds(l.Bytes(j), at, field)
    decreases j
  {
    if i < j {
      BytesKeep(l, i, j - 1, at, field);
      RoundUpAbove(l.alignment, l.End(j - 1));
      var gap: seq<byte> := seq(RoundUp(l.alignment, l.End(j - 1)) - l.End(j - 1), _ => 0);
      HoldsExtended(l.Bytes(j - 1), at, field, gap + l.files[j - 1].payload);
      assert l.Bytes(j) == l.Bytes(j - 1) + (gap + l.files[j - 1].payload);
    }
  }

  lemma JustWritten(l: Layout, i: nat)
    requires l.Valid() && i < |l.files|
    ensures Holds(l.Bytes(i + 1), RoundUp(l.alignment, l.End(i)), l.files[i].payload)
  {
    BytesEnd(l, i);
    ValidFacts(l, i);
    hide *;
    RoundUpAbove(l.alignment, l.End(i));
    var before := l.Bytes(i) + seq(RoundUp(l.alignment, l.End(i)) - l.End(i), _ => 0);
    HoldsLast(before, l.files[i].payload);
  }

  lemma ValidFacts(l: Layout, i: nat)
    requires l.Valid() && i < |l.files|
    ensures l.alignment > 0 && RoundUp(l.alignment, l.End(i)) >= l.End(i)
    ensures l.Bytes(i + 1) == l.Bytes(i) + seq(RoundUp(l.alignment, l.End(i)) - l.End(i), _ => 0) + l.files[i].payload
  {
    RoundUpAbove(l.alignment, l.End(i));
    hide Layout.End, RoundUp, Layout.Header, Numbers;
  }

  lemma PayloadHeld(l: Layout, i: nat)
    requires l.Valid() && i < |l.files|
    ensures Holds(l.Bytes(|l.files|), RoundUp(l.alignment, l.End(i)), l.files[i].payload)
  {
    hide RoundUp, Holds, Layout.Bytes, Layout.End;
    JustWritten(l, i);
    BytesKeep(l, i + 1, |l.files|, RoundUp(l.alignment, l.End(i)), l.files[i].payload);
  }

  lemma {:induction false} EndsGrow(l: Layout, i: nat, j: nat)
    requires l.alignment > 0 && i <= j <= |l.files|
    ensures l.End(i) <= l.End(j)
    decreases j
  {
    if i < j {
      EndsGrow(l, i, j - 1);
      RoundUpAbove(l.alignment, l.End(j - 1));
    }
  }

  lemma BytesStart(l: Layout)
    requires l.Valid()
    ensures l.Bytes(0) == l.Header() + Numbers(l.Ids(), l.idSize) + Numbers(l.Ends(), l.offsetSize)
    ensures |l.Ids()| == |l.files|
  {
  }

  /** The three parts of the directory lie at their places in the archive. */
  lemma PartsHeld(l: Layout)
    requires l.Valid()
    ensures var a := l.Bytes(|l.files|);
      Holds(a, 0, l.Header()) && Holds(a, 0x10, Numbers(l.Ids(), l.idSize))
      && Holds(a, 0x10 + Place(|l.files|, l.idSize), Numbers(l.Ends(), l.offsetSize))
  {
    var h, ids, ends := l.Header(), Numbers(l.Ids(), l.idSize), Numbers(l.Ends(), l.offsetSize);
    BytesStart(l);
    hide *;
    HoldsLast([], h);
    assert [] + h == h;
    HoldsLast(h, ids);
    HoldsLast(h + ids, ends);
    HoldsExtended(h, 0, h, ids);
    HoldsExtended(h + ids, 0, h, ends);
    HoldsExtended(h + ids, |h|, ids, ends);
    BytesKeep(l, 0, |l.files|, 0, h);
    BytesKeep(l, 0, |l.files|, 0x10, ids);
    BytesKeep(l, 0, |l.files|, 0x10 + Place(|l.files|, l.idSize), ends);
  }

  lemma NumberHeld(data: seq<byte>, at: nat, v: nat, k: nat)
    requires Holds(data, at, LittleBytes(v, k)) && v < Scale(k)
    ensures NumberAt(data, at, k) == v
  {
    LittleRoundTrip(v, k);
  }

  lemma ItemHeld(data: seq<byte>, start: nat, vs: seq<nat>, w: nat, i: nat)
    requires (w == 2 || w == 4) && Holds(data, start, Numbers(vs, w)) && i < |vs| && vs[i] < Scale(w)
    ensures ItemAt(data, start, i, w) == vs[i]
  {
    hide Holds, Numbers, NumberAt, LittleBytes, Scale;
    NumbersHold(vs, w, i);
    HoldsWithin(data, start, Numbers(vs, w), Place(i, w), LittleBytes(vs[i], w));
    NumberHeld(data, start + Place(i, w), vs[i], w);
  }

  lemma HeaderRead(l: Layout, data: seq<byte>)
    requires l.Valid() && Holds(data, 0, l.Header())
    ensures |data| >= 4 && BigValue(data[..4]) == MAGIC
    ensures DirectoryOf(data) == Directory(|l.files|, l.alignment, l.idSize, l.offsetSize)
  {
    Scales();
    var first: seq<byte> := [0x41, 0x46, 0x53, 0x32, 1, l.offsetSize, l.idSize, 0];
    var count, alignment := LittleBytes(|l.files|, 4), LittleBytes(l.alignment, 4);
    assert l.Header() == first + (count + alignment);
    HoldsParts(data, 0, first, count + alignment);
    HoldsParts(data, 8, count, alignment);
    NumberHeld(data, 8, |l.files|, 4);
    NumberHeld(data, 12, l.alignment, 4);
    assert data[0..8][5] == data[5] && data[0..8][6] == data[6];
    SingleByte(data, 5);
    SingleByte(data, 6);
    assert data[..4] == data[0..8][..4] == [0x41, 0x46, 0x53, 0x32];
    MagicValue();
  }

  lemma MagicValue()
    ensures BigValue([0x41, 0x46, 0x53, 0x32]) == MAGIC
  {
    var s: seq<byte> := [0x41, 0x46, 0x53, 0x32];
    var s3: seq<byte>, s2: seq<byte>, s1: seq<byte> := [0x41, 0x46, 0x53], [0x41, 0x46], [0x41];
    assert s[..3] == s3 && s3[..2] == s2 && s2[..1] == s1 && s1[..0] == [];
    assert BigValue(s1) == 0x41 && BigValue(s2) == 0x4146 && BigValue(s3) == 0x41_4653;
  }

  /** The numbers of the directory, read back. */
  lemma NumbersRead(l: Layout, i: nat)
    requires l.Valid() && i < |l.files|
    ensures var a := l.Bytes(|l.files|);
      ItemAt(a, 0x10, i, l.idSize) == l.files[i].cueID
      && ItemAt(a, 0x10 + Place(|l.files|, l.idSize), i, l.offsetSize) == l.End(i)
      && ItemAt(a, 0x10 + Place(|l.files|, l.idSize), i + 1, l.offsetSize) == l.End(i + 1)
  {
    hide Layout.Bytes, Layout.Header, Numbers, Holds, Scale, ItemAt;
    var a := l.Bytes(|l.files|);
    PartsHeld(l);
    EndsGrow(l, i, |l.files|);
    EndsGrow(l, i + 1, |l.files|);
    hide Layout.End;
    ItemHeld(a, 0x10, l.Ids(), l.idSize, i);
    ItemHeld(a, 0x10 + Place(|l.files|, l.idSize), l.Ends(), l.offsetSize, i);
    ItemHeld(a, 0x10 + Place(|l.files|, l.idSize), l.Ends(), l.offsetSize, i + 1);
  }

  lemma EndsFit(l: Layout, i: nat)
    requires l.Valid() && i < |l.files|
    ensures l.End(i + 1) == RoundUp(l.alignment, l.End(i)) + |l.files[i].payload| < WORD32
    ensures l.End(i) < WORD32
  {
    Scales();
    hide RoundUp, Scale;
    EndsGrow(l, i, |l.files|);
    EndsGrow(l, i + 1, |l.files|);
  }

  lemma ValidAlignment(l: Layout)
    requires l.Valid()
    ensures 0 < l.alignment < WORD32
  {
  }

  lemma EntryFrom(divide: (nat, nat) -> real, data: seq<byte>, i: nat, d: Directory, id: nat, end: nat, next: nat,
                  offset: nat, size: nat)
    requires DirectoryOf(data) == d && ItemAt(data, 0x10, i, d.idSize) == id
    requires ItemAt(data, 0x10 + Place(d.count, d.idSize), i, d.offsetSize) == end
    requires ItemAt(data, 0x10 + Place(d.count, d.idSize), i + 1, d.offsetSize) == next
    requires Align(divide, d.alignment, end) == offset && next == offset + size < WORD32
    ensures EntryAt(divide, data, i) == Entry(id, offset, size)
  {
    hide DirectoryOf, ItemAt, Align, Place;
    assert size % WORD32 == size;
  }

  /** Every entry of the directory describes the file that was written. */
  lemma EntryRead(divide: (nat, nat) -> real, l: Layout, i: nat)
    requires l.Valid() && IsFloatDivision(divide) && i < |l.files|
    ensures EntryAt(divide, l.Bytes(|l.files|), i)
         == Entry(l.files[i].cueID, RoundUp(l.alignment, l.End(i)), |l.files[i].payload|)
  {
    hide *;
    ValidAlignment(l);
    var a, offset := l.Bytes(|l.files|), RoundUp(l.alignment, l.End(i));
    PartsHeld(l);
    HeaderRead(l, a);
    NumbersRead(l, i);
    EndsFit(l, i);
    AlignRoundsUp(divide, l.alignment, l.End(i));
    EntryFrom(divide, a, i, Directory(|l.files|, l.alignment, l.idSize, l.offsetSize), l.files[i].cueID, l.End(i),
              l.End(i + 1), offset, |l.files[i].payload|);
  }

  /** Reading the archive of any files gives back every payload by its cue id. */
  lemma ArchiveRoundTrip(divide: (nat, nat) -> real, l: Layout, i: nat)
    requires l.Valid() && IsFloatDivision(divide) && i < |l.files|
    ensures var a := l.Bytes(|l.files|);
      var entries := Entries(divide, a);
      entries.Some? && |entries.value| == |l.files|
      && Lookup(a, entries.value, l.files[i].cueID) == Some(l.files[i].payload)
  {
    var a := l.Bytes(|l.files|);
    PartsHeld(l);
    HeaderRead(l, a);
    var entries := Entries(divide, a).value;
    forall j | 0 <= j < |l.files| ensures entries[j].cueID == l.files[j].cueID {
      EntryRead(divide, l, j);
    }
    EntryRead(divide, l, i);
    PayloadHeld(l, i);
    var k := FirstWith(entries, l.files[i].cueID, 0);
    assert k == i;
  }

  /** Exact division is one of the divisions allowed for. */
  function ExactDivision(n: nat, a: nat): real { if a == 0 then 0.0 else n as real / a as real }

  lemma ExactDivisionQualifies()
    ensures IsFloatDivision(ExactDivision)
  {
    forall n: nat, a: nat | n < WORD32 && 0 < a < WORD32
      ensures NearQuotient(n, a, ExactDivision(n, a))
    {
      ExactQuotient(n, a, ExactDivision(n, a));
    }
  }

  lemma ExactQuotient(n: nat, a: nat, d: real)
    requires 0 < a && Multiple(d, a) == n as real
    ensures NearQuotient(n, a, d)
  {
    if n % a == 0 {
      assert n == n / a * a;
      MultipleInteger(n / a, a);
      MultipleMonotone(d, (n / a) as real, a);
      MultipleMonotone((n / a) as real, d, a);
    }
  }
}

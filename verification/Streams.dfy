/**
  Reading from a seekable stream: fixed-width reads, reads at an offset that put the
  position back, and NUL-terminated strings read in pieces of sixteen bytes.
 */
module Streams {
  import opened Bytes
  import opened OffsetReader

  datatype Option<T> = None | Some(value: T)

  // ---------- what reads give ----------

  /** n bytes at pos, unless the stream ends before; reading nothing always works. */
  function BytesAt(data: seq<byte>, pos: nat, n: nat): (b: Option<seq<byte>>)
    ensures b.Some? ==> |b.value| == n
  {
    if n == 0 then Some([]) else if pos + n <= |data| then Some(data[pos..pos + n]) else None
  }

  /** A failed read still consumes what was there. */
  function PosAfter(data: seq<byte>, pos: nat, n: nat): nat
  {
    if n == 0 || pos >= |data| then pos else if pos + n <= |data| then pos + n else |data|
  }

  /** The bytes before the first NUL from pos on, if there is one. */
  function StringAt(data: seq<byte>, pos: nat): Option<seq<byte>>
    decreases |data| - pos
  {
    if pos >= |data| then None
    else if data[pos] == 0 then Some([])
    else
      match StringAt(data, pos + 1)
      case None => None
      case Some(rest) => Some([data[pos]] + rest)
  }

  predicate NulFree(s: seq<byte>) { forall i :: 0 <= i < |s| ==> s[i] != 0 }

  /** A string followed by NUL is read back, and nothing else reads as that string. */
  lemma {:induction false} StringAtIs(data: seq<byte>, pos: nat, s: seq<byte>)
    requires NulFree(s)
    ensures StringAt(data, pos) == Some(s) <==> Holds(data, pos, s + [0])
    decreases |s|
  {
    if s == [] {
      if pos < |data| {
        assert data[pos..pos + 1] == [data[pos]];
      }
    } else {
      var rest := s[1..];
      assert s + [0] == [s[0]] + (rest + [0]);
      assert s == [s[0]] + rest;
      HoldsParts(data, pos, [s[0]], rest + [0]);
      StringAtIs(data, pos + 1, rest);
      if pos < |data| {
        assert data[pos..pos + 1] == [data[pos]];
      }
    }
  }

  // ---------- the reader ----------

  /** What is read: a stream, or another one from some offset on. */
  datatype Source = OnStream(stream: Stream) | OnOffset(reader: OffsetReadSeeker)
  {
    ghost function Repr(): set<object>
    {
      match this
      case OnStream(stream) => {stream}
      case OnOffset(reader) => {reader, reader.base}
    }

    ghost function Data(): seq<byte>
    {
      match this
      case OnStream(stream) => stream.data
      case OnOffset(reader) => From(reader.base.data, reader.start)
    }

    ghost function Pos(): nat
      reads Repr()
    {
      match this
      case OnStream(stream) => stream.pos
      case OnOffset(reader) => reader.pos
    }
  }

  class Reader {
    const source: Source

    constructor (source: Source)
      ensures this.source == source
    {
      this.source := source;
    }

    ghost function Repr(): set<object> { source.Repr() }

    ghost function Data(): seq<byte> { source.Data() }

    ghost function Pos(): nat
      reads Repr()
    {
      source.Pos()
    }

    /** Either source is a stream of its data. */
    method Read(n: nat) returns (reply: Reply)
      modifies Repr()
      ensures (reply, Pos()) == Plain(Data(), old(Pos()), Op.Read(n))
    {
      match source
      case OnStream(stream) => reply := stream.Read(n);
      case OnOffset(reader) => reply := reader.Read(n);
    }

    method Seek(offset: int, whence: Whence) returns (reply: Reply)
      modifies Repr()
      ensures source.OnStream? || !EndSeek(Data(), Op.Seek(offset, whence)) ==>
        (reply, Pos()) == Plain(Data(), old(Pos()), Op.Seek(offset, whence))
    {
      match source
      case OnStream(stream) => reply := stream.Seek(offset, whence);
      case OnOffset(reader) => reply := reader.Seek(offset, whence);
    }

    method SeekStart(offset: nat)
      modifies Repr()
      ensures Pos() == offset
    {
      var _ := Seek(offset, Start);
    }

    method Tell() returns (at: nat)
      modifies Repr()
      ensures at == old(Pos()) == Pos()
    {
      var reply := Seek(0, Current);
      at := reply.pos;
    }

    /** Reads exactly n bytes or fails; what was read of a short stream is followed by zeros. */
    method ReadBytes(n: nat) returns (buf: seq<byte>, ok: bool)
      modifies Repr()
      ensures Pos() == PosAfter(Data(), old(Pos()), n)
      ensures |buf| == n && ok == BytesAt(Data(), old(Pos()), n).Some?
      ensures ok ==> BytesAt(Data(), old(Pos()), n) == Some(buf)
      ensures forall i :: 0 <= i < n ==> buf[i] == if old(Pos()) + i < |Data()| then Data()[old(Pos()) + i] else 0
    {
      hide Source.Data, Source.Pos;
      var reply := Read(n);
      ok := |reply.bytes| == n;
      buf := reply.bytes + seq(n - |reply.bytes|, _ => 0);
      assert ok ==> buf == reply.bytes;
    }

    /** A number of k bytes, least significant first; 0 when the stream ends. */
    method ReadLittle(k: nat) returns (v: nat, ok: bool)
      requires k > 0
      modifies Repr()
      ensures Pos() == PosAfter(Data(), old(Pos()), k)
      ensures ok == (old(Pos()) + k <= |Data()|)
      ensures v == if ok then LittleValue(Data()[old(Pos())..old(Pos()) + k]) else 0
    {
      var buf;
      buf, ok := ReadBytes(k);
      v := if ok then LittleValue(buf) else 0;
    }

    /** A number of k bytes, most significant first; 0 when the stream ends. */
    method ReadBig(k: nat) returns (v: nat, ok: bool)
      requires k > 0
      modifies Repr()
      ensures Pos() == PosAfter(Data(), old(Pos()), k)
      ensures ok == (old(Pos()) + k <= |Data()|)
      ensures v == if ok then BigValue(Data()[old(Pos())..old(Pos()) + k]) else 0
    {
      var buf;
      buf, ok := ReadBytes(k);
      v := if ok then BigValue(buf) else 0;
    }

    method ReadBytesAt(n: nat, offset: nat) returns (r: Option<seq<byte>>)
      modifies Repr()
      ensures Pos() == old(Pos()) && r == BytesAt(Data(), offset, n)
    {
      var saved := Tell();
      SeekStart(offset);
      var buf, ok := ReadBytes(n);
      r := if ok then Some(buf) else None;
      SeekStart(saved);
    }

    /** In pieces of sixteen bytes or what is left. */
    method ReadString0() returns (r: Option<seq<byte>>)
      modifies Repr()
      ensures r == StringAt(Data(), old(Pos()))
    {
      hide Source.Data, Source.Pos, StringAt, Prefixed;
      var buf: seq<byte> := [];
      ghost var data, start := Data(), Pos();
      PrefixedNothing(StringAt(data, start));
      while true
        invariant StringAt(data, start) == Prefixed(buf, StringAt(data, Pos()))
        decreases if Pos() < |data| then |data| - Pos() + 1 else 0
      {
        ghost var at := Pos();
        StringStep(data, at);
        var reply := Read(16);
        var temp := reply.bytes;
        if reply.eof {
          return None;
        }
        var i := 0;
        while i < |temp|
          invariant 0 <= i <= |temp| && Pos() == at + |temp|
          invariant StringAt(data, start) == Prefixed(buf, StringAt(data, at + i))
        {
          StringStep(data, at + i);
          if temp[i] == 0 {
            PrefixedEnd(buf);
            return Some(buf);
          }
          PrefixedStep(buf, temp[i], StringAt(data, at + i + 1));
          buf := buf + [temp[i]];
          i := i + 1;
        }
      }
    }

    method ReadString0At(offset: nat) returns (r: Option<seq<byte>>)
      modifies Repr()
      ensures Pos() == old(Pos()) && r == StringAt(Data(), offset)
    {
      var saved := Tell();
      SeekStart(offset);
      r := ReadString0();
      SeekStart(saved);
    }
  }

  function Prefixed(s: seq<byte>, rest: Option<seq<byte>>): Option<seq<byte>>
  {
    match rest
    case None => None
    case Some(t) => Some(s + t)
  }

  /** A read string ends at a NUL, goes on after any other byte, and is none at the end of the stream. */
  lemma StringStep(data: seq<byte>, pos: nat)
    ensures pos >= |data| ==> forall s :: Prefixed(s, StringAt(data, pos)).None?
    ensures pos < |data| && data[pos] == 0 ==> StringAt(data, pos) == Some([])
    ensures pos < |data| && data[pos] != 0 ==> StringAt(data, pos) == Prefixed([data[pos]], StringAt(data, pos + 1))
  {
  }

  lemma PrefixedEnd(s: seq<byte>)
    ensures Prefixed(s, Some([])) == Some(s)
  {
    assert s + [] == s;
  }

  lemma PrefixedNothing(rest: Option<seq<byte>>)
    ensures Prefixed([], rest) == rest
  {
    if rest.Some? {
      assert [] + rest.value == rest.value;
    }
  }

  lemma PrefixedStep(s: seq<byte>, b: byte, rest: Option<seq<byte>>)
    ensures Prefixed(s, Prefixed([b], rest)) == Prefixed(s + [b], rest)
  {
    if rest.Some? {
      assert s + ([b] + rest.value) == s + [b] + rest.value;
    }
  }
}

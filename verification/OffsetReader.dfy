/**
  A seekable reader that starts inside another stream. Clients that never seek from the end
  cannot tell it from the stream of the bytes from there on, even when somebody else moves
  the stream underneath.
 */
module OffsetReader {
  import opened Bytes

  datatype Whence = Start | Current | FromEnd | Other

  datatype Op = Read(n: nat) | Seek(offset: int, whence: Whence)

  /** Read: the bytes, none at the end of the stream. Seek: the new position. */
  datatype Reply = Got(bytes: seq<byte>, eof: bool) | At(pos: nat) | Refused

  function From(data: seq<byte>, start: nat): seq<byte>
  {
    if start <= |data| then data[start..] else []
  }

  /** What a read of up to n bytes gives at pos. */
  function Piece(data: seq<byte>, pos: nat, n: nat): (b: seq<byte>)
    ensures |b| <= n
  {
    if pos >= |data| then [] else if pos + n <= |data| then data[pos..pos + n] else data[pos..]
  }

  /** A stream on its own. */
  function Plain(data: seq<byte>, pos: nat, op: Op): (Reply, nat)
  {
    match op
    case Read(n) => (Got(Piece(data, pos, n), pos >= |data|), pos + |Piece(data, pos, n)|)
    case Seek(offset, whence) =>
      var next: int := Target(whence, offset, pos, |data|);
      if whence.Other? || next < 0 then (Refused, pos) else (At(next), next)
  }

  /** Where a seek goes in a stream of the given length. */
  function Target(whence: Whence, offset: int, pos: nat, length: nat): int
  {
    match whence
    case Current => pos + offset
    case FromEnd => length + offset
    case _ => offset
  }

  /** The one thing a plain stream does and the offset reader refuses. */
  predicate EndSeek(data: seq<byte>, op: Op)
  {
    op.Seek? && op.whence.FromEnd? && |data| + op.offset >= 0
  }

  /** One operation of the offset reader on its own position and the position of the stream underneath. */
  function OffsetStep(data: seq<byte>, start: nat, pos: nat, under: nat, op: Op): (Reply, nat, nat)
  {
    match op
    case Read(n) =>
      var b := Piece(data, start + pos, n);
      (Got(b, start + pos >= |data|), pos + |b|, start + pos + |b|)
    case Seek(offset, whence) =>
      var next: int := if whence.Current? then pos + offset else offset;
      if whence.FromEnd? || whence.Other? || next < 0 then (Refused, pos, under) else (At(next), next, start + next)
  }

  class Stream {
    const data: seq<byte>
    var pos: nat

    constructor (data: seq<byte>)
      ensures this.data == data && pos == 0
    {
      this.data := data;
      pos := 0;
    }

    method Read(n: nat) returns (reply: Reply)
      modifies this
      ensures (reply, pos) == Plain(data, old(pos), Op.Read(n))
    {
      var eof := pos >= |data|;
      var bytes := if eof then [] else if pos + n <= |data| then data[pos..pos + n] else data[pos..];
      pos := pos + |bytes|;
      reply := Got(bytes, eof);
    }

    method Seek(offset: int, whence: Whence) returns (reply: Reply)
      modifies this
      ensures (reply, pos) == Plain(data, old(pos), Op.Seek(offset, whence))
    {
      var next: int := Target(whence, offset, pos, |data|);
      if whence.Other? || next < 0 {
        return Refused;
      }
      pos := next;
      reply := At(pos);
    }
  }

  class OffsetReadSeeker {
    const base: Stream
    const start: nat
    var pos: nat

    constructor (base: Stream, start: nat)
      ensures this.base == base && this.start == start && pos == 0
    {
      this.base := base;
      this.start := start;
      pos := 0;
    }

    /** Wherever the stream underneath stands. */
    method Read(n: nat) returns (reply: Reply)
      modifies this, base
      ensures (reply, pos, base.pos) == OffsetStep(base.data, start, old(pos), old(base.pos), Op.Read(n))
      ensures (reply, pos) == Plain(From(base.data, start), old(pos), Op.Read(n))
    {
      PieceFrom(base.data, start, pos, n);
      var _ := base.Seek(start + pos, Start);
      reply := base.Read(n);
      pos := pos + |reply.bytes|;
    }

    method Seek(offset: int, whence: Whence) returns (reply: Reply)
      modifies this, base
      ensures (reply, pos, base.pos) == OffsetStep(base.data, start, old(pos), old(base.pos), Op.Seek(offset, whence))
      ensures !EndSeek(From(base.data, start), Op.Seek(offset, whence)) ==>
        (reply, pos) == Plain(From(base.data, start), old(pos), Op.Seek(offset, whence))
    {
      var next: int := 0;
      match whence {
        case Start =>
          next := offset;
        case Current =>
          next := pos + offset;
        case FromEnd =>
          return Refused;
        case Other =>
          return Refused;
      }
      if next < 0 {
        return Refused;
      }
      var _ := base.Seek(start + next, Start);
      pos := next;
      reply := At(pos);
    }
  }

  lemma PieceFrom(data: seq<byte>, start: nat, pos: nat, n: nat)
    ensures Piece(data, start + pos, n) == Piece(From(data, start), pos, n)
    ensures start + pos >= |data| <==> pos >= |From(data, start)|
  {
    if start + pos < |data| {
      var left := |data| - start;
      assert data[start..] == data[start..start + left];
      var end := if pos + n <= left then pos + n else left;
      SliceOfSlice(data, start, left, pos, end);
    }
  }

  // ---------- clients ----------

  /** A client chooses every operation from the replies so far, as a parser does. */
  type Client = seq<Reply> -> Op

  /** The replies of the first n operations on a plain stream. */
  function PlainRun(data: seq<byte>, client: Client, n: nat): (seq<Reply>, nat)
  {
    if n == 0 then ([], 0) else
      var (replies, pos) := PlainRun(data, client, n - 1);
      var (reply, next) := Plain(data, pos, client(replies));
      (replies + [reply], next)
  }

  /** The same through the offset reader; before the i-th operation somebody moves the stream to moved(i, where it was). */
  function OffsetRun(data: seq<byte>, start: nat, client: Client, moved: (nat, nat) -> nat, n: nat): (seq<Reply>, nat, nat)
  {
    if n == 0 then ([], 0, 0) else
      var (replies, pos, under) := OffsetRun(data, start, client, moved, n - 1);
      var (reply, next, under') := OffsetStep(data, start, pos, moved(n - 1, under), client(replies));
      (replies + [reply], next, under')
  }

  /** The i-th operation of a client on a plain stream. */
  function OpAt(data: seq<byte>, client: Client, i: nat): Op { client(PlainRun(data, client, i).0) }

  /**
    A client gets the same replies from the offset reader and from the bytes from start on exactly
    when none of its operations is a seek from the end that the stream would perform.
   */
  lemma {:induction false} SameReplies(data: seq<byte>, start: nat, client: Client, moved: (nat, nat) -> nat, n: nat)
    ensures var plain, offset := PlainRun(From(data, start), client, n), OffsetRun(data, start, client, moved, n);
      |plain.0| == |offset.0| == n
      && (offset.0 == plain.0 <==> forall i :: 0 <= i < n ==> !EndSeek(From(data, start), OpAt(From(data, start), client, i)))
      && (offset.0 == plain.0 ==> offset.1 == plain.1)
  {
    hide Piece, From;
    if n > 0 {
      SameReplies(data, start, client, moved, n - 1);
      var plain, offset := PlainRun(From(data, start), client, n - 1), OffsetRun(data, start, client, moved, n - 1);
      LastReply(data, start, client, moved, n);
      var op := OpAt(From(data, start), client, n - 1);
      StepReply(data, start, plain.1, moved(n - 1, offset.2), op);
      Appended(offset.0, plain.0, OffsetRun(data, start, client, moved, n).0[n - 1], PlainRun(From(data, start), client, n).0[n - 1]);
      hide EndSeek, Plain, OffsetStep;
    }
  }

  lemma Appended<T>(s: seq<T>, t: seq<T>, x: T, y: T)
    requires |s| == |t|
    ensures s + [x] == t + [y] <==> s == t && x == y
  {
    assert (s + [x])[..|s|] == s && (t + [y])[..|t|] == t;
  }

  lemma LastReply(data: seq<byte>, start: nat, client: Client, moved: (nat, nat) -> nat, n: nat)
    requires n > 0
    ensures var before, after := PlainRun(From(data, start), client, n - 1), PlainRun(From(data, start), client, n);
      after == (before.0 + [Plain(From(data, start), before.1, client(before.0)).0],
                Plain(From(data, start), before.1, client(before.0)).1)
    ensures var before, after := OffsetRun(data, start, client, moved, n - 1), OffsetRun(data, start, client, moved, n);
      var step := OffsetStep(data, start, before.1, moved(n - 1, before.2), client(before.0));
      after.0 == before.0 + [step.0] && after.1 == step.1
  {
    hide Plain, OffsetStep;
  }

  /** One operation gets the same reply unless it is such a seek; wherever the stream underneath stands. */
  lemma StepReply(data: seq<byte>, start: nat, pos: nat, under: nat, op: Op)
    ensures var plain, offset := Plain(From(data, start), pos, op), OffsetStep(data, start, pos, under, op);
      (offset.0 == plain.0 <==> !EndSeek(From(data, start), op)) && (offset.0 == plain.0 ==> offset.1 == plain.1)
  {
    hide Piece, From;
    if op.Read? {
      PieceFrom(data, start, pos, op.n);
    }
  }

  /** A client that can tell: it asks for the length. */
  lemma LengthTells(data: seq<byte>, start: nat, moved: (nat, nat) -> nat)
    ensures var client: Client := (replies: seq<Reply>) => Seek(0, FromEnd);
      PlainRun(From(data, start), client, 1).0 == [At(|From(data, start)|)]
      && OffsetRun(data, start, client, moved, 1).0 == [Refused]
  {
    var client: Client := (replies: seq<Reply>) => Seek(0, FromEnd);
    LastReply(data, start, client, moved, 1);
    assert PlainRun(From(data, start), client, 0) == ([], 0) && OffsetRun(data, start, client, moved, 0) == ([], 0, 0);
  }
}

/**
  A writer for @UTF tables, and the round trip: parsing what it writes gives the table back.
 */
module UtfWriter {
  import opened Bytes
  import opened Common
  import opened Streams
  import opened OffsetReader
  import opened Utf

  // ---------- values ----------

  function TypeOf(v: Value): nat
  {
    match v
    case Unsigned(w, _) => if w == 1 then 0 else if w == 2 then 2 else if w == 4 then 4 else 6
    case Signed(w, _) => if w == 1 then 1 else if w == 2 then 3 else 5
    case Float(_) => 8
    case Text(_) => 10
    case Blob(_) => 11
  }

  predicate WellFormed(v: Value)
  {
    match v
    case Unsigned(w, n) => w in {1, 2, 4, 8} && n < Scale(w)
    case Signed(w, i) => w in {1, 2, 4} && -(Scale(w) as int) / 2 <= i < Scale(w) / 2
    case Float(bits) => bits < Scale(4)
    case Text(s) => NulFree(s)
    case Blob(_) => true
  }

  /** Strings with their NULs and data, in the order they are referred to. */
  datatype Pools = Pools(strings: seq<byte>, blobs: seq<byte>)

  predicate Within(p: Pools, q: Pools) { p.strings <= q.strings && p.blobs <= q.blobs }

  /** The bytes of a value in the schema or in a row. */
  function Field(v: Value, p: Pools): (b: seq<byte>)
    requires WellFormed(v)
    ensures ColumnValueSize(TypeOf(v)) == Some(|b|)
  {
    match v
    case Unsigned(w, n) => BigBytes(n, w)
    case Signed(w, i) => BigBytes(i % Scale(w), w)
    case Float(bits) => BigBytes(bits, 4)
    case Text(_) => BigBytes(|p.strings|, 4)
    case Blob(b) => BigBytes(|p.blobs|, 4) + BigBytes(|b|, 4)
  }

  function WithString(p: Pools, s: seq<byte>): Pools { Pools(p.strings + s + [0], p.blobs) }

  function Pooled(v: Value, p: Pools): (q: Pools)
    ensures Within(p, q)
  {
    match v
    case Text(s) => WithString(p, s)
    case Blob(b) => Pools(p.strings, p.blobs + b)
    case _ => p
  }

  function RawOf(v: Value, p: Pools): Raw
  {
    match v
    case Text(_) => StringPromise(|p.strings|)
    case Blob(b) => DataPromise(|p.blobs|, |b|)
    case _ => Direct(v)
  }

  /** The final pools lie where the header says. */
  predicate Placed(data: seq<byte>, h: Header, q: Pools)
  {
    h.Strings() + |q.strings| < WORD32 && h.Blobs() + |q.blobs| < WORD32
    && Holds(data, h.Strings(), q.strings) && Holds(data, h.Blobs(), q.blobs)
  }

  lemma PrefixHeld(data: seq<byte>, at: nat, pool: seq<byte>, before: seq<byte>, item: seq<byte>)
    requires Holds(data, at, pool) && before + item <= pool
    ensures Holds(data, at + |before|, item)
  {
    var rest := pool[|before + item|..];
    assert pool == before + (item + rest);
    HoldsParts(data, at, before, item + rest);
    HoldsParts(data, at + |before|, item, rest);
  }

  /** A pooled string is read back from its offset. */
  lemma StringReads(data: seq<byte>, h: Header, p: Pools, s: seq<byte>, q: Pools)
    requires Placed(data, h, q) && Within(WithString(p, s), q) && NulFree(s)
    ensures StringAt(data, (h.Strings() + |p.strings|) % WORD32) == Some(s)
    ensures |p.strings| < WORD32
  {
    hide Holds, StringAt;
    assert p.strings + (s + [0]) == p.strings + s + [0];
    PrefixHeld(data, h.Strings(), q.strings, p.strings, s + [0]);
    StringAtIs(data, h.Strings() + |p.strings|, s);
  }

  lemma WordScale()
    ensures WORD32 == Scale(4)
  {
    Scales();
  }

  lemma NumberReads(data: seq<byte>, pos: nat, n: nat, w: nat)
    requires Holds(data, pos, BigBytes(n, w)) && n < Scale(w)
    ensures pos + w <= |data| && BigValue(data[pos..pos + w]) == n
  {
    BigRoundTrip(n, w);
  }

  lemma SignedBack(i: int, w: nat)
    requires w in {1, 2, 4} && -(Scale(w) as int) / 2 <= i < Scale(w) / 2
    ensures i % Scale(w) < Scale(w) && ToSigned(i % Scale(w), w) == i
  {
    Scales();
    var m := Scale(w);
    hide Scale;
    if i < 0 {
      assert (i + m) % m == i + m;
    } else {
      assert i % m == i;
    }
  }

  lemma BlobReads(data: seq<byte>, h: Header, p: Pools, b: seq<byte>, q: Pools)
    requires Placed(data, h, q) && p.blobs + b <= q.blobs
    ensures BytesAt(data, (h.Blobs() + |p.blobs|) % WORD32, |b|) == Some(b)
    ensures |p.blobs| < WORD32 && |b| < WORD32
  {
    PrefixHeld(data, h.Blobs(), q.blobs, p.blobs, b);
  }

  lemma NumberFieldReads(data: seq<byte>, pos: nat, v: Value, p: Pools)
    requires WellFormed(v) && (v.Unsigned? || v.Signed? || v.Float?) && Holds(data, pos, Field(v, p))
    ensures RawAt(data, pos, TypeOf(v)) == Some(Direct(v))
  {
    hide Scale, BigBytes, BigValue, Holds, ToSigned;
    match v
    case Unsigned(w, n) =>
      NumberReads(data, pos, n, w);
    case Signed(w, i) =>
      SignedBack(i, w);
      NumberReads(data, pos, i % Scale(w), w);
    case Float(bits) =>
      NumberReads(data, pos, bits, 4);
  }

  lemma TextFieldReads(data: seq<byte>, h: Header, pos: nat, s: seq<byte>, p: Pools, q: Pools)
    requires NulFree(s) && Holds(data, pos, BigBytes(|p.strings|, 4)) && Placed(data, h, q) && Within(WithString(p, s), q)
    ensures RawAt(data, pos, 10) == Some(StringPromise(|p.strings|))
    ensures Resolve(data, h, StringPromise(|p.strings|)) == Some(Text(s))
  {
    Scales();
    hide Scale, BigBytes, BigValue, Holds, StringAt, Within, NulFree, Header.Strings;
    StringReads(data, h, p, s, q);
    NumberReads(data, pos, |p.strings|, 4);
  }

  lemma PromiseReads(data: seq<byte>, pos: nat, offset: nat, size: nat)
    requires pos + 8 <= |data| && BigValue(data[pos..pos + 4]) == offset && BigValue(data[pos + 4..pos + 8]) == size
    ensures RawAt(data, pos, 11) == Some(DataPromise(offset, size))
  {
    hide BigValue;
    var field := data[pos..pos + 8];
    SliceOfSlice(data, pos, 8, 0, 4);
    SliceOfSlice(data, pos, 8, 4, 8);
    assert field[4..] == field[4..8] && field[..4] == field[0..4];
  }

  lemma DataResolves(data: seq<byte>, h: Header, offset: nat, b: seq<byte>)
    requires BytesAt(data, (h.Blobs() + offset) % WORD32, |b|) == Some(b)
    ensures Resolve(data, h, DataPromise(offset, |b|)) == Some(Blob(b))
  {
  }

  lemma BlobFieldReads(data: seq<byte>, h: Header, pos: nat, b: seq<byte>, p: Pools, q: Pools)
    requires Holds(data, pos, BigBytes(|p.blobs|, 4) + BigBytes(|b|, 4)) && Placed(data, h, q) && p.blobs + b <= q.blobs
    ensures RawAt(data, pos, 11) == Some(DataPromise(|p.blobs|, |b|))
    ensures Resolve(data, h, DataPromise(|p.blobs|, |b|)) == Some(Blob(b))
  {
    hide *;
    WordScale();
    BlobReads(data, h, p, b, q);
    DataResolves(data, h, |p.blobs|, b);
    HoldsParts(data, pos, BigBytes(|p.blobs|, 4), BigBytes(|b|, 4));
    NumberReads(data, pos, |p.blobs|, 4);
    NumberReads(data, pos + 4, |b|, 4);
    PromiseReads(data, pos, |p.blobs|, |b|);
  }

  /** A written value is read back, whatever is pooled after it. */
  lemma FieldReads(data: seq<byte>, h: Header, pos: nat, v: Value, p: Pools, q: Pools)
    requires WellFormed(v) && Holds(data, pos, Field(v, p)) && Placed(data, h, q) && Within(Pooled(v, p), q)
    ensures RawAt(data, pos, TypeOf(v)) == Some(RawOf(v, p))
    ensures Resolve(data, h, RawOf(v, p)) == Some(v)
  {
    hide RawAt, Holds, BigBytes, Placed;
    if v.Text? {
      TextFieldReads(data, h, pos, v.s, p, q);
    } else if v.Blob? {
      BlobFieldReads(data, h, pos, v.b, p, q);
    } else {
      NumberFieldReads(data, pos, v, p);
    }
  }

  // ---------- the schema ----------

  /** A column without data, one with the same value in every row, or one with a value in each row. */
  datatype Kind = NameOnly(typ: nat) | Constant(v: Value, alsoRow: bool) | PerRow(typ: nat)

  datatype ColumnSpec = ColumnSpec(name: seq<byte>, kind: Kind)
  {
    predicate Valid()
    {
      NulFree(name)
      && match kind
         case Constant(v, _) => WellFormed(v)
         case _ => kind.typ < 16 && ColumnValueSize(kind.typ).Some?
    }

    function Flag(): (f: nat)
      ensures f < 8
    {
      match kind
      case NameOnly(_) => 1
      case Constant(_, alsoRow) => if alsoRow then 7 else 3
      case PerRow(_) => 5
    }

    function Type(): (t: nat)
      requires Valid()
      ensures t < 16 && ColumnValueSize(t).Some?
    {
      match kind
      case Constant(v, _) =>
        assert |Field(v, Pools([], []))| >= 0;
        TypeOf(v)
      case _ => kind.typ
    }

    function Bytes(p: Pools): seq<byte>
      requires Valid()
    {
      [16 * Flag() + Type()] + BigBytes(|p.strings|, 4)
      + if kind.Constant? then Field(kind.v, WithString(p, name)) else []
    }

    function PoolsAfter(p: Pools): (q: Pools)
      ensures Within(WithString(p, name), q) && Within(p, q)
    {
      if kind.Constant? then Pooled(kind.v, WithString(p, name)) else WithString(p, name)
    }

    function Width(): nat
      requires Valid()
    {
      if kind.PerRow? then ColumnValueSize(kind.typ).value else 0
    }

    /** The schema after this column is read. */
    function After(p: Pools, s: Schema): Schema
      requires Valid()
    {
      Schema(s.pos + |Bytes(p)|, s.rowOffset + Width(),
             s.columns + [Column(Flag(), Type(), name, if kind.PerRow? then s.rowOffset else 0)],
             if kind.PerRow? then s.keys + [name] else s.keys,
             if kind.Constant? then s.constants[name := RawOf(kind.v, WithString(p, name))] else s.constants)
    }
  }

  predicate ColumnsValid(cs: seq<ColumnSpec>)
  {
    (forall i :: 0 <= i < |cs| ==> cs[i].Valid()) && forall i, j :: 0 <= i < j < |cs| ==> cs[i].name != cs[j].name
  }

  function SchemaBytes(cs: seq<ColumnSpec>, n: nat, p: Pools): seq<byte>
    requires ColumnsValid(cs) && n <= |cs|
  {
    if n == 0 then [] else SchemaBytes(cs, n - 1, p) + cs[n - 1].Bytes(SchemaPools(cs, n - 1, p))
  }

  function SchemaPools(cs: seq<ColumnSpec>, n: nat, p: Pools): (q: Pools)
    requires ColumnsValid(cs) && n <= |cs|
    ensures Within(p, q)
  {
    if n == 0 then p else cs[n - 1].PoolsAfter(SchemaPools(cs, n - 1, p))
  }

  /** The schema the parser should have after n columns. */
  function Expected(cs: seq<ColumnSpec>, n: nat, p: Pools): (s: Schema)
    requires ColumnsValid(cs) && n <= |cs|
    ensures |s.columns| == n && s.pos == SCHEMA + |SchemaBytes(cs, n, p)|
  {
    if n == 0 then Schema(SCHEMA, 0, [], [], map[])
    else cs[n - 1].After(SchemaPools(cs, n - 1, p), Expected(cs, n - 1, p))
  }

  /** The schema with one more column of a flag that columns may have. */
  function Grown(s: Schema, flag: nat, typ: nat, w: nat, name: seq<byte>, raw: Raw): Schema
  {
    if flag == 1 then Schema(s.pos + 5, s.rowOffset, s.columns + [Column(flag, typ, name, 0)], s.keys, s.constants)
    else if flag == 5 then
      Schema(s.pos + 5, s.rowOffset + w, s.columns + [Column(flag, typ, name, s.rowOffset)], s.keys + [name], s.constants)
    else
      Schema(s.pos + 5 + w, s.rowOffset, s.columns + [Column(flag, typ, name, 0)], s.keys, s.constants[name := raw])
  }

  lemma NextColumnFrom(data: seq<byte>, h: Header, s: Schema, flag: nat, typ: nat, w: nat, name: seq<byte>, raw: Raw)
    requires s.pos + 5 <= |data| && data[s.pos] == 16 * flag + typ && typ < 16
    requires flag == 1 || flag == 3 || flag == 5 || flag == 7
    requires ColumnValueSize(typ) == Some(w)
    requires NameAt(data, h, s.pos) == Some(name)
    requires flag == 3 || flag == 7 ==> RawAt(data, s.pos + 5, typ) == Some(raw)
    ensures NextColumn(data, h, s) == Some(Grown(s, flag, typ, w, name, raw))
  {
    FlagBits(flag);
    InfoByte(flag, typ);
    hide NameAt, RawAt, ColumnValueSize, HasName, HasDefault, HasRow, IsUndefined;
  }

  lemma FlagBits(flag: nat)
    requires flag == 1 || flag == 3 || flag == 5 || flag == 7
    ensures HasName(flag) && !IsUndefined(flag)
    ensures HasDefault(flag) == (flag == 3 || flag == 7) && HasRow(flag) == (flag == 5 || flag == 7)
  {
  }

  lemma InfoByte(flag: nat, typ: nat)
    requires typ < 16
    ensures (16 * flag + typ) / 16 == flag && (16 * flag + typ) % 16 == typ
  {
  }

  lemma NextColumnIs(data: seq<byte>, h: Header, c: ColumnSpec, p: Pools, s: Schema)
    requires c.Valid() && s.pos + 5 <= |data| && data[s.pos] == 16 * c.Flag() + c.Type()
    requires BigValue(data[s.pos + 1..s.pos + 5]) == |p.strings|
    requires StringAt(data, (h.Strings() + |p.strings|) % WORD32) == Some(c.name)
    requires c.kind.Constant? ==> RawAt(data, s.pos + 5, TypeOf(c.kind.v)) == Some(RawOf(c.kind.v, WithString(p, c.name)))
    ensures NextColumn(data, h, s) == Some(c.After(p, s))
  {
    hide *;
    ColumnFacts(c);
    NameAtIs(data, h, s.pos, |p.strings|);
    var w := ColumnValueSize(c.Type()).value;
    var raw := if c.kind.Constant? then RawOf(c.kind.v, WithString(p, c.name)) else StringPromise(0);
    NextColumnFrom(data, h, s, c.Flag(), c.Type(), w, c.name, raw);
    AfterIs(c, p, s, w, raw);
  }

  lemma NameAtIs(data: seq<byte>, h: Header, pos: nat, offset: nat)
    requires pos + 5 <= |data| && BigValue(data[pos + 1..pos + 5]) == offset
    ensures NameAt(data, h, pos) == StringAt(data, (h.Strings() + offset) % WORD32)
  {
  }

  lemma ColumnFacts(c: ColumnSpec)
    requires c.Valid()
    ensures c.Flag() == 1 || c.Flag() == 3 || c.Flag() == 5 || c.Flag() == 7
    ensures c.Flag() == 3 || c.Flag() == 7 <==> c.kind.Constant?
    ensures c.kind.Constant? ==> c.Type() == TypeOf(c.kind.v)
  {
  }

  lemma AfterIs(c: ColumnSpec, p: Pools, s: Schema, w: nat, raw: Raw)
    requires c.Valid() && ColumnValueSize(c.Type()) == Some(w)
    requires c.kind.Constant? ==> raw == RawOf(c.kind.v, WithString(p, c.name))
    ensures c.After(p, s) == Grown(s, c.Flag(), c.Type(), w, c.name, raw)
  {
    BytesLength(c, p);
    hide ColumnSpec.Bytes, RawOf, WithString, ColumnValueSize, TypeOf, WellFormed, NulFree;
  }

  lemma BytesLength(c: ColumnSpec, p: Pools)
    requires c.Valid()
    ensures |c.Bytes(p)| == 5 + if c.kind.Constant? then ColumnValueSize(c.Type()).value else 0
  {
    hide BigBytes, Field;
  }

  lemma BytesParts(c: ColumnSpec, p: Pools)
    requires c.Valid()
    ensures var value := if c.kind.Constant? then Field(c.kind.v, WithString(p, c.name)) else [];
      c.Bytes(p) == [16 * c.Flag() + c.Type()] + (BigBytes(|p.strings|, 4) + value)
    ensures c.kind.Constant? ==> WellFormed(c.kind.v) && c.PoolsAfter(p) == Pooled(c.kind.v, WithString(p, c.name))
    ensures NulFree(c.name)
  {
  }

  lemma WithinAfter(c: ColumnSpec, p: Pools, q: Pools)
    requires Within(c.PoolsAfter(p), q)
    ensures Within(WithString(p, c.name), q)
  {
  }

  /** A written column is read back. */
  lemma ColumnReads(data: seq<byte>, h: Header, c: ColumnSpec, p: Pools, q: Pools, s: Schema)
    requires c.Valid() && Holds(data, s.pos, c.Bytes(p)) && Placed(data, h, q) && Within(c.PoolsAfter(p), q)
    ensures NextColumn(data, h, s) == Some(c.After(p, s))
  {
    hide *;
    BytesParts(c, p);
    WithinAfter(c, p, q);
    var info: seq<byte> := [16 * c.Flag() + c.Type()];
    var value := if c.kind.Constant? then Field(c.kind.v, WithString(p, c.name)) else [];
    StringReads(data, h, p, c.name, q);
    WordScale();
    HoldsParts(data, s.pos, info, BigBytes(|p.strings|, 4) + value);
    HoldsParts(data, s.pos + 1, BigBytes(|p.strings|, 4), value);
    FirstByte(data, s.pos, info[0]);
    NumberReads(data, s.pos + 1, |p.strings|, 4);
    if c.kind.Constant? {
      FieldReads(data, h, s.pos + 5, c.kind.v, WithString(p, c.name), q);
    }
    NextColumnIs(data, h, c, p, s);
  }

  lemma FirstByte(data: seq<byte>, at: nat, b: byte)
    requires Holds(data, at, [b])
    ensures at < |data| && data[at] == b
  {
    assert data[at..at + 1][0] == data[at];
  }

  lemma {:induction false} SchemaReads(data: seq<byte>, h: Header, cs: seq<ColumnSpec>, n: nat, p: Pools, q: Pools)
    requires ColumnsValid(cs) && n <= |cs| && Holds(data, SCHEMA, SchemaBytes(cs, n, p)) && Placed(data, h, q)
    requires Within(SchemaPools(cs, n, p), q)
    ensures SchemaOf(data, h, n) == Some(Expected(cs, n, p))
  {
    if n > 0 {
      hide *;
      SchemaUnfolds(cs, n, p, q);
      HoldsParts(data, SCHEMA, SchemaBytes(cs, n - 1, p), cs[n - 1].Bytes(SchemaPools(cs, n - 1, p)));
      SchemaReads(data, h, cs, n - 1, p, q);
      ColumnReads(data, h, cs[n - 1], SchemaPools(cs, n - 1, p), q, Expected(cs, n - 1, p));
      SchemaOfNext(data, h, n, Expected(cs, n - 1, p));
    }
  }

  lemma SchemaOfNext(data: seq<byte>, h: Header, n: nat, before: Schema)
    requires n > 0 && SchemaOf(data, h, n - 1) == Some(before)
    ensures SchemaOf(data, h, n) == NextColumn(data, h, before)
  {
    hide NextColumn;
  }

  // ---------- constants ----------

  /** The constants of the first n columns by name. */
  function ConstantRow(cs: seq<ColumnSpec>, n: nat): (r: Row)
    requires n <= |cs|
    ensures forall k :: k in r ==> exists i :: 0 <= i < n && cs[i].name == k && cs[i].kind.Constant?
  {
    if n == 0 then map[]
    else if cs[n - 1].kind.Constant? then ConstantRow(cs, n - 1)[cs[n - 1].name := cs[n - 1].kind.v]
    else ConstantRow(cs, n - 1)
  }

  lemma ConstantReads(data: seq<byte>, h: Header, c: ColumnSpec, p: Pools, q: Pools, pos: nat)
    requires c.Valid() && Holds(data, pos, c.Bytes(p)) && Placed(data, h, q) && Within(c.PoolsAfter(p), q)
    requires c.kind.Constant?
    ensures Resolve(data, h, RawOf(c.kind.v, WithString(p, c.name))) == Some(c.kind.v)
  {
    hide *;
    BytesParts(c, p);
    var head: seq<byte> := [16 * c.Flag() + c.Type()];
    var field := Field(c.kind.v, WithString(p, c.name));
    HoldsParts(data, pos, head, BigBytes(|p.strings|, 4) + field);
    HoldsParts(data, pos + 1, BigBytes(|p.strings|, 4), field);
    FieldReads(data, h, pos + 5, c.kind.v, WithString(p, c.name), q);
  }

  lemma SchemaUnfolds(cs: seq<ColumnSpec>, n: nat, p: Pools, q: Pools)
    requires ColumnsValid(cs) && 0 < n <= |cs|
    ensures var c, before := cs[n - 1], SchemaPools(cs, n - 1, p);
      c.Valid()
      && SchemaBytes(cs, n, p) == SchemaBytes(cs, n - 1, p) + c.Bytes(before)
      && SchemaPools(cs, n, p) == c.PoolsAfter(before)
      && Expected(cs, n, p) == c.After(before, Expected(cs, n - 1, p))
    ensures Within(SchemaPools(cs, n, p), q) ==> Within(SchemaPools(cs, n - 1, p), q)
  {
    hide ColumnSpec.Valid, ColumnSpec.Bytes, ColumnSpec.After;
  }

  /** The raw constants of the first n columns resolve to the constants that were written. */
  ghost predicate Resolved(data: seq<byte>, h: Header, cs: seq<ColumnSpec>, n: nat, raws: map<seq<byte>, Raw>)
    requires n <= |cs|
  {
    ConstantRow(cs, n).Keys == raws.Keys
    && forall k :: k in raws ==> Resolve(data, h, raws[k]) == Some(ConstantRow(cs, n)[k])
  }

  lemma ResolvedNext(data: seq<byte>, h: Header, cs: seq<ColumnSpec>, n: nat, p: Pools, s: Schema)
    requires 0 < n <= |cs| && cs[n - 1].Valid() && Resolved(data, h, cs, n - 1, s.constants)
    requires var c := cs[n - 1];
      c.kind.Constant? ==> Resolve(data, h, RawOf(c.kind.v, WithString(p, c.name))) == Some(c.kind.v)
    ensures Resolved(data, h, cs, n, cs[n - 1].After(p, s).constants)
  {
    hide Resolve, RawOf, WithString, ColumnSpec.Bytes, ColumnSpec.Type, ColumnSpec.Flag, ColumnSpec.Width;
  }

  lemma NothingResolved(data: seq<byte>, h: Header, cs: seq<ColumnSpec>, p: Pools)
    requires ColumnsValid(cs)
    ensures Resolved(data, h, cs, 0, Expected(cs, 0, p).constants)
  {
  }

  lemma {:induction false} ConstantsResolve(data: seq<byte>, h: Header, cs: seq<ColumnSpec>, n: nat, p: Pools, q: Pools)
    requires ColumnsValid(cs) && n <= |cs| && Holds(data, SCHEMA, SchemaBytes(cs, n, p)) && Placed(data, h, q)
    requires Within(SchemaPools(cs, n, p), q)
    ensures Resolved(data, h, cs, n, Expected(cs, n, p).constants)
  {
    hide *;
    if n == 0 {
      NothingResolved(data, h, cs, p);
    } else {
      var c, before := cs[n - 1], SchemaPools(cs, n - 1, p);
      SchemaUnfolds(cs, n, p, q);
      HoldsParts(data, SCHEMA, SchemaBytes(cs, n - 1, p), c.Bytes(before));
      ConstantsResolve(data, h, cs, n - 1, p, q);
      if c.kind.Constant? {
        ConstantReads(data, h, c, before, q, SCHEMA + |SchemaBytes(cs, n - 1, p)|);
      }
      ResolvedNext(data, h, cs, n, before, Expected(cs, n - 1, p));
    }
  }

  // ---------- rows ----------

  /** A row to be written: one value of the right type for every per-row column, by name. */
  predicate RowFits(cs: seq<ColumnSpec>, row: Row)
  {
    (forall i :: 0 <= i < |cs| && cs[i].kind.PerRow? ==>
       cs[i].name in row && WellFormed(row[cs[i].name]) && TypeOf(row[cs[i].name]) == cs[i].kind.typ)
    && forall k :: k in row ==> exists i :: 0 <= i < |cs| && cs[i].name == k && cs[i].kind.PerRow?
  }

  function RowBytes(cs: seq<ColumnSpec>, row: Row, n: nat, p: Pools): (b: seq<byte>)
    requires ColumnsValid(cs) && RowFits(cs, row) && n <= |cs|
    ensures |b| == RowWidth(cs, n)
  {
    if n == 0 then []
    else if !cs[n - 1].kind.PerRow? then RowBytes(cs, row, n - 1, p)
    else RowBytes(cs, row, n - 1, p) + Field(row[cs[n - 1].name], RowPools(cs, row, n - 1, p))
  }

  function RowPools(cs: seq<ColumnSpec>, row: Row, n: nat, p: Pools): (q: Pools)
    requires ColumnsValid(cs) && RowFits(cs, row) && n <= |cs|
    ensures Within(p, q)
  {
    if n == 0 then p
    else if !cs[n - 1].kind.PerRow? then RowPools(cs, row, n - 1, p)
    else Pooled(row[cs[n - 1].name], RowPools(cs, row, n - 1, p))
  }

  function RowWidth(cs: seq<ColumnSpec>, n: nat): nat
    requires ColumnsValid(cs) && n <= |cs|
  {
    if n == 0 then 0 else RowWidth(cs, n - 1) + cs[n - 1].Width()
  }

  /** The values of a row in its first n columns. */
  function RowPart(cs: seq<ColumnSpec>, row: Row, n: nat): (r: Row)
    requires RowFits(cs, row) && n <= |cs|
    ensures forall k :: k in r ==> k in row && r[k] == row[k]
    ensures forall i :: 0 <= i < n && cs[i].kind.PerRow? ==> cs[i].name in r
  {
    if n == 0 then map[]
    else if cs[n - 1].kind.PerRow? then RowPart(cs, row, n - 1)[cs[n - 1].name := row[cs[n - 1].name]]
    else RowPart(cs, row, n - 1)
  }

  lemma WholeRow(cs: seq<ColumnSpec>, row: Row)
    requires RowFits(cs, row)
    ensures RowPart(cs, row, |cs|) == row
  {
    hide WellFormed;
    var r := RowPart(cs, row, |cs|);
    forall k | k in row ensures k in r {
      var i :| 0 <= i < |cs| && cs[i].name == k && cs[i].kind.PerRow?;
      assert cs[i].name in r;
    }
    assert r.Keys == row.Keys;
  }

  /** What the parser knows of each column: per-row columns carry their offset in the row. */
  lemma {:induction false} ColumnsAre(cs: seq<ColumnSpec>, n: nat, p: Pools, j: nat)
    requires ColumnsValid(cs) && j < n <= |cs|
    ensures Expected(cs, n, p).rowOffset == RowWidth(cs, n)
    ensures Expected(cs, n, p).columns[j]
         == Column(cs[j].Flag(), cs[j].Type(), cs[j].name, if cs[j].kind.PerRow? then RowWidth(cs, j) else 0)
  {
    hide *;
    var c, before := cs[n - 1], SchemaPools(cs, n - 1, p);
    SchemaUnfolds(cs, n, p, before);
    AfterColumn(c, before, Expected(cs, n - 1, p));
    WidthUnfolds(cs, n, p);
    if j < n - 1 {
      ColumnsAre(cs, n - 1, p, j);
    } else if n > 1 {
      ColumnsAre(cs, n - 1, p, 0);
    }
  }

  lemma AfterColumn(c: ColumnSpec, p: Pools, s: Schema)
    requires c.Valid()
    ensures var t := c.After(p, s);
      t.rowOffset == s.rowOffset + c.Width()
      && t.columns == s.columns + [Column(c.Flag(), c.Type(), c.name, if c.kind.PerRow? then s.rowOffset else 0)]
  {
  }

  lemma WidthUnfolds(cs: seq<ColumnSpec>, n: nat, p: Pools)
    requires ColumnsValid(cs) && 0 < n <= |cs|
    ensures RowWidth(cs, n) == RowWidth(cs, n - 1) + cs[n - 1].Width()
    ensures n == 1 ==> RowWidth(cs, 0) == Expected(cs, 0, p).rowOffset && Expected(cs, 0, p).columns == []
    ensures |Expected(cs, n - 1, p).columns| == n - 1
  {
  }

  lemma RowUnfolds(cs: seq<ColumnSpec>, row: Row, n: nat, p: Pools, q: Pools)
    requires ColumnsValid(cs) && RowFits(cs, row) && 0 < n <= |cs|
    ensures var c, before := cs[n - 1], RowPools(cs, row, n - 1, p);
      c.Valid()
      && (!c.kind.PerRow? ==>
            RowBytes(cs, row, n, p) == RowBytes(cs, row, n - 1, p) && RowPools(cs, row, n, p) == before
            && RowPart(cs, row, n) == RowPart(cs, row, n - 1))
      && (c.kind.PerRow? ==>
            c.name in row && WellFormed(row[c.name]) && TypeOf(row[c.name]) == c.kind.typ
            && RowBytes(cs, row, n, p) == RowBytes(cs, row, n - 1, p) + Field(row[c.name], before)
            && |RowBytes(cs, row, n - 1, p)| == RowWidth(cs, n - 1)
            && RowPools(cs, row, n, p) == Pooled(row[c.name], before)
            && RowPart(cs, row, n) == RowPart(cs, row, n - 1)[c.name := row[c.name]])
    ensures Within(RowPools(cs, row, n, p), q) ==> Within(RowPools(cs, row, n - 1, p), q)
  {
    hide Field, ColumnSpec.Valid, WellFormed;
  }

  lemma RowOfNext(data: seq<byte>, h: Header, columns: seq<Column>, shared: Row, r: nat, n: nat, before: Row, v: Option<Value>)
    requires 0 < n <= |columns| && RowOf(data, h, columns, shared, r, n - 1) == Some(before)
    requires var c := columns[n - 1];
      IsDynamic(c) == v.Some? && (v.Some? ==> ValueAt(data, h, FieldPos(h, r, c.offset), c.typ) == v)
    ensures RowOf(data, h, columns, shared, r, n)
         == Some(if v.Some? then before[columns[n - 1].name := v.value] else before)
  {
    hide ValueAt, FieldPos;
  }

  lemma MergeUpdate(shared: Row, part: Row, name: seq<byte>, v: Value)
    ensures (shared + part)[name := v] == shared + part[name := v]
  {
  }

  lemma NoColumns(data: seq<byte>, h: Header, cs: seq<ColumnSpec>, columns: seq<Column>, row: Row, shared: Row, r: nat)
    requires RowFits(cs, row)
    ensures RowOf(data, h, columns, shared, r, 0) == Some(shared + RowPart(cs, row, 0))
  {
    assert shared + map[] == shared;
  }

  /** A written row is read back on top of the constants. */
  lemma {:induction false} RowReads(data: seq<byte>, h: Header, cs: seq<ColumnSpec>, row: Row, shared: Row, r: nat, n: nat,
                                    base: Pools, p: Pools, q: Pools)
    requires ColumnsValid(cs) && RowFits(cs, row) && n <= |cs|
    requires Holds(data, FieldPos(h, r, 0), RowBytes(cs, row, n, p)) && Placed(data, h, q)
    requires Within(RowPools(cs, row, n, p), q)
    ensures RowOf(data, h, Expected(cs, |cs|, base).columns, shared, r, n) == Some(shared + RowPart(cs, row, n))
  {
    hide *;
    var columns := Expected(cs, |cs|, base).columns;
    if n == 0 {
      NoColumns(data, h, cs, columns, row, shared, r);
    } else {
      var c, before := cs[n - 1], RowPools(cs, row, n - 1, p);
      RowUnfolds(cs, row, n, p, q);
      if c.kind.PerRow? {
        HoldsParts(data, FieldPos(h, r, 0), RowBytes(cs, row, n - 1, p), Field(row[c.name], before));
      }
      RowReads(data, h, cs, row, shared, r, n - 1, base, p, q);
      ColumnsAre(cs, |cs|, base, n - 1);
      Dynamic(c);
      var v: Option<Value> := None;
      if c.kind.PerRow? {
        FieldPosShifts(h, r, RowWidth(cs, n - 1));
        RowFieldReads(data, h, FieldPos(h, r, RowWidth(cs, n - 1)), row[c.name], before, q);
        MergeUpdate(shared, RowPart(cs, row, n - 1), c.name, row[c.name]);
        v := Some(row[c.name]);
      }
      RowOfNext(data, h, columns, shared, r, n, shared + RowPart(cs, row, n - 1), v);
    }
  }

  lemma Dynamic(c: ColumnSpec)
    requires c.Valid()
    ensures forall offset :: IsDynamic(Column(c.Flag(), c.Type(), c.name, offset)) <==> c.kind.PerRow?
    ensures c.kind.PerRow? ==> c.Type() == c.kind.typ
  {
    FlagBits(c.Flag());
  }

  lemma FieldPosShifts(h: Header, r: nat, offset: nat)
    ensures FieldPos(h, r, offset) == FieldPos(h, r, 0) + offset
  {
  }

  lemma RowFieldReads(data: seq<byte>, h: Header, pos: nat, v: Value, p: Pools, q: Pools)
    requires WellFormed(v) && Holds(data, pos, Field(v, p)) && Placed(data, h, q) && Within(Pooled(v, p), q)
    ensures ValueAt(data, h, pos, TypeOf(v)) == Some(v)
  {
    hide RawAt, Resolve, RawOf, TypeOf;
    FieldReads(data, h, pos, v, p, q);
  }

  predicate RowsFit(cs: seq<ColumnSpec>, rows: seq<Row>) { forall r :: 0 <= r < |rows| ==> RowFits(cs, rows[r]) }

  function RowsBytes(cs: seq<ColumnSpec>, rows: seq<Row>, k: nat, p: Pools): seq<byte>
    requires ColumnsValid(cs) && RowsFit(cs, rows) && k <= |rows|
  {
    if k == 0 then [] else RowsBytes(cs, rows, k - 1, p) + RowBytes(cs, rows[k - 1], |cs|, RowsPools(cs, rows, k - 1, p))
  }

  function RowsPools(cs: seq<ColumnSpec>, rows: seq<Row>, k: nat, p: Pools): (q: Pools)
    requires ColumnsValid(cs) && RowsFit(cs, rows) && k <= |rows|
    ensures Within(p, q)
  {
    if k == 0 then p else RowPools(cs, rows[k - 1], |cs|, RowsPools(cs, rows, k - 1, p))
  }

  lemma {:induction false} RowsLength(cs: seq<ColumnSpec>, rows: seq<Row>, k: nat, p: Pools)
    requires ColumnsValid(cs) && RowsFit(cs, rows) && k <= |rows|
    ensures |RowsBytes(cs, rows, k, p)| == k * RowWidth(cs, |cs|)
  {
    hide RowBytes, RowWidth;
    if k > 0 {
      RowsLength(cs, rows, k - 1, p);
      assert k * RowWidth(cs, |cs|) == (k - 1) * RowWidth(cs, |cs|) + RowWidth(cs, |cs|);
    }
  }

  /** The rows of the table: the constants in each, then its own values. */
  function TableRows(cs: seq<ColumnSpec>, rows: seq<Row>): (r: seq<Row>)
    ensures |r| == |rows|
  {
    seq(|rows|, r requires 0 <= r < |rows| => ConstantRow(cs, |cs|) + rows[r])
  }

  lemma RowsUnfold(cs: seq<ColumnSpec>, rows: seq<Row>, k: nat, p: Pools, q: Pools)
    requires ColumnsValid(cs) && RowsFit(cs, rows) && 0 < k <= |rows|
    ensures var before := RowsPools(cs, rows, k - 1, p);
      RowFits(cs, rows[k - 1])
      && RowsBytes(cs, rows, k, p) == RowsBytes(cs, rows, k - 1, p) + RowBytes(cs, rows[k - 1], |cs|, before)
      && RowsPools(cs, rows, k, p) == RowPools(cs, rows[k - 1], |cs|, before)
      && (Within(RowsPools(cs, rows, k, p), q) ==> Within(before, q))
      && TableRows(cs, rows)[..k] == TableRows(cs, rows)[..k - 1] + [ConstantRow(cs, |cs|) + rows[k - 1]]
  {
    hide RowBytes, RowFits, ConstantRow;
  }

  lemma NoRows(data: seq<byte>, h: Header, cs: seq<ColumnSpec>, rows: seq<Row>, columns: seq<Column>)
    ensures RowsOf(data, h, columns, ConstantRow(cs, |cs|), 0) == Some(TableRows(cs, rows)[..0])
  {
  }

  lemma RowsOfNext(data: seq<byte>, h: Header, columns: seq<Column>, shared: Row, k: nat, before: seq<Row>, row: Row)
    requires k > 0 && RowsOf(data, h, columns, shared, k - 1) == Some(before)
    requires RowOf(data, h, columns, shared, k - 1, |columns|) == Some(row)
    ensures RowsOf(data, h, columns, shared, k) == Some(before + [row])
  {
    hide RowOf;
  }

  lemma {:induction false} RowsRead(data: seq<byte>, h: Header, cs: seq<ColumnSpec>, rows: seq<Row>, k: nat,
                                    base: Pools, p: Pools, q: Pools)
    requires ColumnsValid(cs) && RowsFit(cs, rows) && k <= |rows| && h.rowSize == RowWidth(cs, |cs|)
    requires Holds(data, h.rowOffset + 8, RowsBytes(cs, rows, k, p)) && Placed(data, h, q)
    requires Within(RowsPools(cs, rows, k, p), q) && h.rowOffset + 8 + |RowsBytes(cs, rows, k, p)| < WORD32
    ensures RowsOf(data, h, Expected(cs, |cs|, base).columns, ConstantRow(cs, |cs|), k) == Some(TableRows(cs, rows)[..k])
  {
    hide *;
    if k == 0 {
      NoRows(data, h, cs, rows, Expected(cs, |cs|, base).columns);
    } else {
      var before := RowsPools(cs, rows, k - 1, p);
      RowsUnfold(cs, rows, k, p, q);
      HoldsParts(data, h.rowOffset + 8, RowsBytes(cs, rows, k - 1, p), RowBytes(cs, rows[k - 1], |cs|, before));
      RowsLength(cs, rows, k - 1, p);
      RowPlace(data, h, k - 1, RowBytes(cs, rows[k - 1], |cs|, before));
      RowsRead(data, h, cs, rows, k - 1, base, p, q);
      RowReads(data, h, cs, rows[k - 1], ConstantRow(cs, |cs|), k - 1, |cs|, base, before, q);
      ExpectedLength(cs, base);
      WholeRow(cs, rows[k - 1]);
      RowsOfNext(data, h, Expected(cs, |cs|, base).columns, ConstantRow(cs, |cs|), k, TableRows(cs, rows)[..k - 1],
                 ConstantRow(cs, |cs|) + rows[k - 1]);
    }
  }

  lemma ExpectedLength(cs: seq<ColumnSpec>, base: Pools)
    requires ColumnsValid(cs)
    ensures |Expected(cs, |cs|, base).columns| == |cs|
  {
  }

  /** A row of a table starts below 2^32, so its position does not wrap. */
  lemma RowPlace(data: seq<byte>, h: Header, r: nat, row: seq<byte>)
    requires Holds(data, h.rowOffset + 8 + r * h.rowSize, row) && h.rowOffset + 8 + r * h.rowSize < WORD32
    ensures Holds(data, FieldPos(h, r, 0), row)
  {
  }

  // ---------- whole tables ----------

  datatype Spec = Spec(name: seq<byte>, columns: seq<ColumnSpec>, rows: seq<Row>)
  {
    /** Distinct NUL-free names, values of the right types, and nothing beyond what the header can express. */
    predicate Valid()
    {
      NulFree(name) && ColumnsValid(columns) && RowsFit(columns, rows)
      && 0 < |columns| < 0x1_0000 && |rows| < WORD32 && RowWidth(columns, |columns|) < 0x1_0000
      && |Schema()| < MAX_SCHEMA_SIZE && Size() < WORD32
    }

    function Start(): Pools { WithString(Pools([], []), name) }

    function Schema(): seq<byte>
      requires ColumnsValid(columns)
    {
      SchemaBytes(columns, |columns|, Start())
    }

    function Middle(): Pools
      requires ColumnsValid(columns)
    {
      SchemaPools(columns, |columns|, Start())
    }

    function RowArea(): seq<byte>
      requires ColumnsValid(columns) && RowsFit(columns, rows)
    {
      RowsBytes(columns, rows, |rows|, Middle())
    }

    function Final(): Pools
      requires ColumnsValid(columns) && RowsFit(columns, rows)
    {
      RowsPools(columns, rows, |rows|, Middle())
    }

    function Size(): nat
      requires ColumnsValid(columns) && RowsFit(columns, rows)
    {
      SCHEMA + |Schema()| + |RowArea()| + |Final().strings| + |Final().blobs|
    }

    function Head(): Header
      requires Valid()
    {
      var r := 24 + |Schema()|;
      var s := r + |RowArea()|;
      Header(Size() - 8, r, s, s + |Final().strings|, 0, |columns|, RowWidth(columns, |columns|), |rows|)
    }

    function Bytes(): seq<byte>
      requires Valid()
    {
      HeaderBytes(Head()) + Schema() + RowArea() + Final().strings + Final().blobs
    }
  }

  /** The header with version 0. */
  function HeaderBytes(h: Header): (b: seq<byte>)
    ensures |b| == SCHEMA
  {
    [0x40, 0x55, 0x54, 0x46] + BigBytes(h.tableSize, 4) + [0, 0] + BigBytes(h.rowOffset, 2) + BigBytes(h.stringOffset, 4)
    + BigBytes(h.dataOffset, 4) + BigBytes(h.nameOffset, 4) + BigBytes(h.fields, 2) + BigBytes(h.rowSize, 2)
    + BigBytes(h.rows, 4)
  }

  predicate Fits(h: Header)
  {
    h.tableSize < WORD32 && h.rowOffset < 0x1_0000 && h.stringOffset < WORD32 && h.dataOffset < WORD32
    && h.nameOffset < WORD32 && h.fields < 0x1_0000 && h.rowSize < 0x1_0000 && h.rows < WORD32
  }

  lemma MagicReads()
    ensures BigValue([0x40, 0x55, 0x54, 0x46]) == UTF_MAGIC
  {
    var s4: seq<byte>, s3: seq<byte> := [0x40, 0x55, 0x54, 0x46], [0x40, 0x55, 0x54];
    var s2: seq<byte>, s1: seq<byte> := [0x40, 0x55], [0x40];
    assert s4[..3] == s3 && s3[..2] == s2 && s2[..1] == s1 && s1[..0] == [];
    assert BigValue(s1) == 0x40 && BigValue(s2) == 0x4055 && BigValue(s3) == 0x40_5554;
  }

  /** The slices of a header are its fields. */
  lemma HeaderSlices(data: seq<byte>, h: Header)
    requires Holds(data, 0, HeaderBytes(h))
    ensures |data| >= SCHEMA && data[..4] == [0x40, 0x55, 0x54, 0x46]
    ensures data[4..8] == BigBytes(h.tableSize, 4) && data[10..12] == BigBytes(h.rowOffset, 2)
    ensures data[12..16] == BigBytes(h.stringOffset, 4) && data[16..20] == BigBytes(h.dataOffset, 4)
    ensures data[20..24] == BigBytes(h.nameOffset, 4) && data[24..26] == BigBytes(h.fields, 2)
    ensures data[26..28] == BigBytes(h.rowSize, 2) && data[28..32] == BigBytes(h.rows, 4)
  {
    hide BigBytes;
    var b := HeaderBytes(h);
    assert data[0..32] == b;
    SliceOfSlice(data, 0, 32, 0, 4);
    SliceOfSlice(data, 0, 32, 4, 8);
    SliceOfSlice(data, 0, 32, 10, 12);
    SliceOfSlice(data, 0, 32, 12, 16);
    SliceOfSlice(data, 0, 32, 16, 20);
    SliceOfSlice(data, 0, 32, 20, 24);
    SliceOfSlice(data, 0, 32, 24, 26);
    SliceOfSlice(data, 0, 32, 26, 28);
    SliceOfSlice(data, 0, 32, 28, 32);
    HeaderFields(h);
    assert data[..4] == data[0..4];
  }

  lemma HeaderFields(h: Header)
    ensures var b := HeaderBytes(h);
      b[0..4] == [0x40, 0x55, 0x54, 0x46] && b[4..8] == BigBytes(h.tableSize, 4) && b[10..12] == BigBytes(h.rowOffset, 2)
      && b[12..16] == BigBytes(h.stringOffset, 4) && b[16..20] == BigBytes(h.dataOffset, 4)
      && b[20..24] == BigBytes(h.nameOffset, 4) && b[24..26] == BigBytes(h.fields, 2)
      && b[26..28] == BigBytes(h.rowSize, 2) && b[28..32] == BigBytes(h.rows, 4)
  {
    hide BigBytes;
  }

  lemma HeaderReads(data: seq<byte>, h: Header)
    requires Holds(data, 0, HeaderBytes(h)) && Fits(h)
    ensures HeaderOf(data) == Some(h)
  {
    Scales();
    MagicReads();
    HeaderSlices(data, h);
    BigRoundTrip(h.tableSize, 4);
    BigRoundTrip(h.rowOffset, 2);
    BigRoundTrip(h.stringOffset, 4);
    BigRoundTrip(h.dataOffset, 4);
    BigRoundTrip(h.nameOffset, 4);
    BigRoundTrip(h.fields, 2);
    BigRoundTrip(h.rowSize, 2);
    BigRoundTrip(h.rows, 4);
    hide BigBytes, BigValue, Scale, Holds, HeaderBytes;
  }

  /** Every part of a written table lies where the header says. */
  lemma PartsPlaced(t: Spec)
    requires t.Valid()
    ensures Holds(t.Bytes(), 0, HeaderBytes(t.Head())) && Holds(t.Bytes(), SCHEMA, t.Schema())
    ensures Holds(t.Bytes(), t.Head().rowOffset + 8, t.RowArea()) && Placed(t.Bytes(), t.Head(), t.Final())
    ensures Fits(t.Head()) && t.Head().Accepted() && t.Head().rowOffset + 8 + |t.RowArea()| < WORD32
  {
    Sizes(t);
    FiveParts(HeaderBytes(t.Head()), t.Schema(), t.RowArea(), t.Final().strings, t.Final().blobs);
    hide Spec.Head, HeaderBytes, Spec.Schema, Spec.RowArea, Spec.Final, Holds, Spec.Size, Header.Accepted, Header.Strings,
      Header.Blobs;
  }

  lemma FiveParts(a: seq<byte>, b: seq<byte>, c: seq<byte>, d: seq<byte>, e: seq<byte>)
    ensures var all := a + b + c + d + e;
      Holds(all, 0, a) && Holds(all, |a|, b) && Holds(all, |a| + |b|, c) && Holds(all, |a| + |b| + |c|, d)
      && Holds(all, |a| + |b| + |c| + |d|, e)
  {
    hide Holds;
    HoldsLast([], a);
    assert [] + a == a;
    HoldsLast(a, b);
    HoldsLast(a + b, c);
    HoldsLast(a + b + c, d);
    HoldsLast(a + b + c + d, e);
    HoldsExtended(a, 0, a, b);
    HoldsExtended(a + b, 0, a, c);
    HoldsExtended(a + b, |a|, b, c);
    HoldsExtended(a + b + c, 0, a, d);
    HoldsExtended(a + b + c, |a|, b, d);
    HoldsExtended(a + b + c, |a| + |b|, c, d);
    HoldsExtended(a + b + c + d, 0, a, e);
    HoldsExtended(a + b + c + d, |a|, b, e);
    HoldsExtended(a + b + c + d, |a| + |b|, c, e);
    HoldsExtended(a + b + c + d, |a| + |b| + |c|, d, e);
  }

  lemma Sizes(t: Spec)
    requires t.Valid()
    ensures var h := t.Head();
      Fits(h) && h.Accepted() && h.rowOffset + 8 == SCHEMA + |t.Schema()|
      && h.Strings() == SCHEMA + |t.Schema()| + |t.RowArea()|
      && h.Blobs() == SCHEMA + |t.Schema()| + |t.RowArea()| + |t.Final().strings|
      && |t.Bytes()| == t.Size() < WORD32
  {
    hide Spec.Schema, Spec.RowArea, Spec.Final, ColumnsValid, RowsFit, NulFree, HeaderBytes, RowWidth;
  }

  /** The same with whatever follows the table. */
  lemma PartsWithin(t: Spec, data: seq<byte>)
    requires t.Valid() && Holds(data, 0, t.Bytes())
    ensures Holds(data, 0, HeaderBytes(t.Head())) && Holds(data, SCHEMA, t.Schema())
    ensures Holds(data, t.Head().rowOffset + 8, t.RowArea()) && Placed(data, t.Head(), t.Final())
    ensures Fits(t.Head()) && t.Head().Accepted() && t.Head().rowOffset + 8 + |t.RowArea()| < WORD32
  {
    hide *;
    WrittenPools(t);
    PartsPlaced(t);
    HoldsWithin(data, 0, t.Bytes(), 0, HeaderBytes(t.Head()));
    HoldsWithin(data, 0, t.Bytes(), SCHEMA, t.Schema());
    HoldsWithin(data, 0, t.Bytes(), t.Head().rowOffset + 8, t.RowArea());
    PlacedWithin(t.Bytes(), data, t.Head(), t.Final());
  }

  lemma PlacedWithin(table: seq<byte>, data: seq<byte>, h: Header, q: Pools)
    requires Holds(data, 0, table) && Placed(table, h, q)
    ensures Placed(data, h, q)
  {
    HoldsWithin(data, 0, table, h.Strings(), q.strings);
    HoldsWithin(data, 0, table, h.Blobs(), q.blobs);
    hide Holds;
  }

  /** The name is the first string. */
  lemma NameReads(t: Spec, data: seq<byte>)
    requires t.Valid() && Placed(data, t.Head(), t.Final())
    ensures StringAt(data, (t.Head().Strings() + t.Head().nameOffset) % WORD32) == Some(t.name)
  {
    hide Spec.Bytes, Holds, StringAt, SchemaPools, RowsPools, RowWidth;
    StringReads(data, t.Head(), Pools([], []), t.name, t.Final());
  }

  lemma ResolvedIs(data: seq<byte>, h: Header, cs: seq<ColumnSpec>, raws: map<seq<byte>, Raw>)
    requires Resolved(data, h, cs, |cs|, raws)
    ensures Constants(data, h, raws) == Some(ConstantRow(cs, |cs|))
  {
    hide Resolve, ConstantRow;
    ConstantsAre(data, h, raws, ConstantRow(cs, |cs|));
  }

  lemma TableFrom(data: seq<byte>, h: Header, name: seq<byte>, schema: Schema, shared: Row, rows: seq<Row>)
    requires HeaderOf(data) == Some(h) && h.Accepted()
    requires StringAt(data, (h.Strings() + h.nameOffset) % WORD32) == Some(name)
    requires SchemaOf(data, h, h.fields) == Some(schema) && Constants(data, h, schema.constants) == Some(shared)
    requires RowsOf(data, h, schema.columns, shared, h.rows) == Some(rows)
    ensures TableOf(data) == Some(Table(h, name, schema, rows))
  {
    hide HeaderOf, Header.Accepted, StringAt, SchemaOf, Constants, RowsOf, Header.Strings;
  }

  lemma WrittenPools(t: Spec)
    requires t.Valid()
    ensures Within(SchemaPools(t.columns, |t.columns|, t.Start()), t.Final())
    ensures Within(RowsPools(t.columns, t.rows, |t.rows|, t.Middle()), t.Final())
    ensures ColumnsValid(t.columns) && RowsFit(t.columns, t.rows)
    ensures t.Head().fields == |t.columns| && t.Head().rows == |t.rows| && t.Head().rowSize == RowWidth(t.columns, |t.columns|)
    ensures t.Schema() == SchemaBytes(t.columns, |t.columns|, t.Start())
    ensures t.RowArea() == RowsBytes(t.columns, t.rows, |t.rows|, t.Middle())
    ensures TableRows(t.columns, t.rows)[..|t.rows|] == TableRows(t.columns, t.rows)
  {
    hide SchemaPools, RowsPools, SchemaBytes, RowsBytes, RowWidth, ConstantRow;
  }

  /** Parsing a written table gives its name and its rows: constants in every row, then the row's own values. */
  lemma TableRoundTrip(t: Spec, data: seq<byte>)
    requires t.Valid() && Holds(data, 0, t.Bytes())
    ensures var table := TableOf(data);
      table.Some? && table.value.name == t.name && table.value.rows == TableRows(t.columns, t.rows)
      && table.value.schema == Expected(t.columns, |t.columns|, t.Start())
  {
    hide *;
    var h, cs := t.Head(), t.columns;
    PartsWithin(t, data);
    WrittenPools(t);
    var schema := Expected(cs, |cs|, t.Start());
    HeaderReads(data, h);
    NameReads(t, data);
    SchemaReads(data, h, cs, |cs|, t.Start(), t.Final());
    ConstantsResolve(data, h, cs, |cs|, t.Start(), t.Final());
    ResolvedIs(data, h, cs, schema.constants);
    RowsRead(data, h, cs, t.rows, |t.rows|, t.Start(), t.Middle(), t.Final());
    TableFrom(data, h, t.name, schema, ConstantRow(cs, |cs|), TableRows(cs, t.rows));
  }

  /** A table written anywhere into a file is what the offset reader's bytes mean. */
  lemma TableInsideFile(t: Spec, data: seq<byte>, at: nat)
    requires t.Valid() && Holds(data, at, t.Bytes())
    ensures var table := TableOf(From(data, at));
      table.Some? && table.value.name == t.name && table.value.rows == TableRows(t.columns, t.rows)
  {
    hide Spec.Bytes, TableOf, Expected, TableRows;
    var b := t.Bytes();
    assert From(data, at)[..|b|] == data[at..at + |b|];
    TableRoundTrip(t, From(data, at));
  }

  /** A column with only a name has no value in any row. */
  lemma NameOnlyVanishes(t: Spec, j: nat, r: nat)
    requires t.Valid() && j < |t.columns| && t.columns[j].kind.NameOnly? && r < |t.rows|
    ensures t.columns[j].name !in TableRows(t.columns, t.rows)[r]
  {
    hide SchemaBytes, RowsBytes, SchemaPools, RowsPools, WellFormed, NulFree, ColumnSpec.Valid;
    var cs, k := t.columns, t.columns[j].name;
    assert RowFits(cs, t.rows[r]);
    assert forall i :: 0 <= i < |cs| && cs[i].name == k ==> i == j;
    assert k !in ConstantRow(cs, |cs|) && k !in t.rows[r];
  }
}

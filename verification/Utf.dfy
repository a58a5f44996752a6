/**
  @UTF tables: a header, a schema with the columns and their constants, rows of per-row
  values, strings and data. Parsing as a function of the bytes, and the parser itself.
 */
module Utf {
  import opened Bytes
  import opened Common
  import opened Streams
  import opened OffsetReader

  const UTF_MAGIC: nat := 0x4055_5446
  const MAX_SCHEMA_SIZE: nat := 0x8000
  const SCHEMA: nat := 0x20

  /** A number of w bytes, the bits of a float, a string without its NUL, or data. */
  datatype Value = Unsigned(w: nat, n: nat) | Signed(w: nat, i: int) | Float(bits: nat) | Text(s: seq<byte>) | Blob(b: seq<byte>)

  /** A value as it stands in the schema or in a row: strings and data are elsewhere. */
  datatype Raw = Direct(v: Value) | DataPromise(offset: nat, size: nat) | StringPromise(offset: nat)

  datatype Header = Header(tableSize: nat, rowOffset: nat, stringOffset: nat, dataOffset: nat, nameOffset: nat,
                           fields: nat, rowSize: nat, rows: nat)
  {
    function Strings(): nat { (stringOffset + 8) % WORD32 }

    function Blobs(): nat { (dataOffset + 8) % WORD32 }

    /** The checks before anything else is read. */
    predicate Accepted()
    {
      var end := (tableSize + 8) % WORD32;
      fields != 0 && (rowOffset + 8 - SCHEMA) % WORD32 < MAX_SCHEMA_SIZE
      && rowOffset + 8 <= end && Strings() <= end && Blobs() <= end
    }
  }

  /** flag is the upper half of the column's info byte. */
  datatype Column = Column(flag: nat, typ: nat, name: seq<byte>, offset: nat)

  predicate HasName(flag: nat) { flag % 2 == 1 }
  predicate HasDefault(flag: nat) { flag / 2 % 2 == 1 }
  predicate HasRow(flag: nat) { flag / 4 % 2 == 1 }
  predicate IsUndefined(flag: nat) { flag / 8 % 2 == 1 }

  /** Whether a column has a value in every row of the file; a constant has priority. */
  predicate IsDynamic(c: Column) { HasRow(c.flag) && !HasDefault(c.flag) }

  // ---------- parsing as a function ----------

  function ColumnValueSize(typ: nat): (w: Option<nat>)
    ensures w.Some? ==> w.value in {1, 2, 4, 8}
  {
    match typ
    case 0 => Some(1)
    case 1 => Some(1)
    case 2 => Some(2)
    case 3 => Some(2)
    case 4 => Some(4)
    case 5 => Some(4)
    case 6 => Some(8)
    case 8 => Some(4)
    case 10 => Some(4)
    case 11 => Some(8)
    case _ => None
  }

  function ToSigned(n: nat, w: nat): int { if n < Scale(w) / 2 then n else n - Scale(w) }

  function RawFrom(typ: nat, b: seq<byte>): Raw
    requires ColumnValueSize(typ) == Some(|b|)
  {
    if typ == 11 then DataPromise(BigValue(b[..4]), BigValue(b[4..]))
    else if typ == 10 then StringPromise(BigValue(b))
    else if typ == 8 then Direct(Float(BigValue(b)))
    else if typ % 2 == 0 then Direct(Unsigned(|b|, BigValue(b)))
    else Direct(Signed(|b|, ToSigned(BigValue(b), |b|)))
  }

  function RawAt(data: seq<byte>, pos: nat, typ: nat): Option<Raw>
  {
    match ColumnValueSize(typ)
    case None => None
    case Some(w) => if pos + w <= |data| then Some(RawFrom(typ, data[pos..pos + w])) else None
  }

  function Resolve(data: seq<byte>, h: Header, raw: Raw): Option<Value>
  {
    match raw
    case Direct(v) => Some(v)
    case DataPromise(offset, size) =>
      (match BytesAt(data, (h.Blobs() + offset) % WORD32, size) case None => None case Some(b) => Some(Blob(b)))
    case StringPromise(offset) =>
      (match StringAt(data, (h.Strings() + offset) % WORD32) case None => None case Some(s) => Some(Text(s)))
  }

  function ValueAt(data: seq<byte>, h: Header, pos: nat, typ: nat): Option<Value>
  {
    match RawAt(data, pos, typ)
    case None => None
    case Some(raw) => Resolve(data, h, raw)
  }

  function HeaderOf(data: seq<byte>): Option<Header>
  {
    if |data| < SCHEMA || BigValue(data[..4]) != UTF_MAGIC then None
    else Some(Header(BigValue(data[4..8]), BigValue(data[10..12]), BigValue(data[12..16]), BigValue(data[16..20]),
                     BigValue(data[20..24]), BigValue(data[24..26]), BigValue(data[26..28]), BigValue(data[28..32])))
  }

  /** The schema read so far. */
  datatype Schema = Schema(pos: nat, rowOffset: nat, columns: seq<Column>, keys: seq<seq<byte>>, constants: map<seq<byte>, Raw>)

  function NameAt(data: seq<byte>, h: Header, pos: nat): Option<seq<byte>>
    requires pos + 5 <= |data|
  {
    StringAt(data, (h.Strings() + BigValue(data[pos + 1..pos + 5])) % WORD32)
  }

  function NextColumn(data: seq<byte>, h: Header, s: Schema): Option<Schema>
  {
    if s.pos + 5 > |data| then None else
      var flag, typ := data[s.pos] / 16, data[s.pos] % 16;
      var name := NameAt(data, h, s.pos);
      if !HasName(flag) || IsUndefined(flag) || name.None? || ColumnValueSize(typ).None? then None
      else WithColumn(data, s, flag, typ, name.value)
  }

  /** The value of a constant column follows in the schema; a per-row column gets its offset in the row. */
  function WithColumn(data: seq<byte>, s: Schema, flag: nat, typ: nat, name: seq<byte>): Option<Schema>
    requires ColumnValueSize(typ).Some?
  {
    var w := ColumnValueSize(typ).value;
    if HasDefault(flag) then
      match RawAt(data, s.pos + 5, typ)
      case None => None
      case Some(raw) =>
        Some(Schema(s.pos + 5 + w, s.rowOffset, s.columns + [Column(flag, typ, name, 0)], s.keys, s.constants[name := raw]))
    else if HasRow(flag) then
      Some(Schema(s.pos + 5, s.rowOffset + w, s.columns + [Column(flag, typ, name, s.rowOffset)], s.keys + [name], s.constants))
    else Some(Schema(s.pos + 5, s.rowOffset, s.columns + [Column(flag, typ, name, 0)], s.keys, s.constants))
  }

  function SchemaOf(data: seq<byte>, h: Header, n: nat): Option<Schema>
  {
    if n == 0 then Some(Schema(SCHEMA, 0, [], [], map[])) else
      match SchemaOf(data, h, n - 1)
      case None => None
      case Some(s) => NextColumn(data, h, s)
  }

  type Row = map<seq<byte>, Value>

  function Constants(data: seq<byte>, h: Header, raws: map<seq<byte>, Raw>): Option<Row>
  {
    if forall k :: k in raws ==> Resolve(data, h, raws[k]).Some?
    then Some(map k | k in raws :: Resolve(data, h, raws[k]).value) else None
  }

  function FieldPos(h: Header, row: nat, offset: nat): nat
  {
    (h.rowOffset + 8 + row * h.rowSize) % WORD32 + offset
  }

  /** One row: the constants, then the values of the first n columns. */
  function RowOf(data: seq<byte>, h: Header, columns: seq<Column>, constants: Row, row: nat, n: nat): Option<Row>
    requires n <= |columns|
  {
    if n == 0 then Some(constants) else
      match RowOf(data, h, columns, constants, row, n - 1)
      case None => None
      case Some(r) =>
        var c := columns[n - 1];
        if !IsDynamic(c) then Some(r) else
          match ValueAt(data, h, FieldPos(h, row, c.offset), c.typ)
          case None => None
          case Some(v) => Some(r[c.name := v])
  }

  function RowsOf(data: seq<byte>, h: Header, columns: seq<Column>, constants: Row, n: nat): (rows: Option<seq<Row>>)
    ensures rows.Some? ==> |rows.value| == n
  {
    if n == 0 then Some([]) else
      match RowsOf(data, h, columns, constants, n - 1)
      case None => None
      case Some(rows) =>
        match RowOf(data, h, columns, constants, n - 1, |columns|)
        case None => None
        case Some(r) => Some(rows + [r])
  }

  datatype Table = Table(header: Header, name: seq<byte>, schema: Schema, rows: seq<Row>)

  /** What the bytes of a table mean, if they are one. */
  function TableOf(data: seq<byte>): Option<Table>
  {
    var h := HeaderOf(data);
    if h.None? || !h.value.Accepted() then None else
      var name := StringAt(data, (h.value.Strings() + h.value.nameOffset) % WORD32);
      var schema := SchemaOf(data, h.value, h.value.fields);
      if name.None? || schema.None? then None else
        var constants := Constants(data, h.value, schema.value.constants);
        if constants.None? then None else
          match RowsOf(data, h.value, schema.value.columns, constants.value, h.value.rows)
          case None => None
          case Some(rows) => Some(Table(h.value, name.value, schema.value, rows))
  }

  // ---------- the parser ----------

  class UTFTable {
    const reader: Reader
    const header: Header
    var name: seq<byte>
    var dynamicKeys: seq<seq<byte>>
    var constants: map<seq<byte>, Raw>
    var schema: seq<Column>
    var rows: seq<Row>

    constructor (reader: Reader, header: Header)
      ensures this.reader == reader && this.header == header
    {
      this.reader := reader;
      this.header := header;
      name, dynamicKeys, constants, schema, rows := [], [], map[], [], [];
    }

    /** What a parsed table says. */
    ghost predicate Says(t: Table)
      reads this
    {
      header == t.header && name == t.name && rows == t.rows && schema == t.schema.columns && dynamicKeys == t.schema.keys
      && constants == t.schema.constants
    }

    method ParseSchema() returns (ok: bool)
      modifies this, reader.Repr()
      ensures name == old(name) && ok == SchemaOf(reader.Data(), header, header.fields).Some?
      ensures ok ==> var s := SchemaOf(reader.Data(), header, header.fields).value;
        schema == s.columns && dynamicKeys == s.keys && constants == s.constants
    {
      hide NextColumn, RawAt, ColumnValueSize, StringAt, Header.Strings, BigValue;
      reader.SeekStart(SCHEMA);
      var columns: seq<Column>, keys: seq<seq<byte>>, raws: map<seq<byte>, Raw> := [], [], map[];
      var rowColumnOffset := 0;
      for i := 0 to header.fields
        invariant SchemaOf(reader.Data(), header, i) == Some(Schema(reader.Pos(), rowColumnOffset, columns, keys, raws))
        invariant name == old(name)
      {
        ghost var s := Schema(reader.Pos(), rowColumnOffset, columns, keys, raws);
        var column, value, valid := ReadColumn(rowColumnOffset, s);
        if !valid {
          SchemaStays(reader.Data(), header, i + 1, header.fields);
          return false;
        }
        columns := columns + [column];
        if HasDefault(column.flag) {
          raws := raws[column.name := value];
        } else if HasRow(column.flag) {
          var w := ColumnValueSize(column.typ).value;
          rowColumnOffset := rowColumnOffset + w;
          keys := keys + [column.name];
        }
      }
      schema, dynamicKeys, constants := columns, keys, raws;
      ok := true;
    }

    /** One column of the schema, with its value when it is a constant. */
    method ReadColumn(rowColumnOffset: nat, ghost s: Schema) returns (column: Column, value: Raw, ok: bool)
      requires s.pos == reader.Pos() && s.rowOffset == rowColumnOffset
      modifies reader.Repr()
      ensures ok == NextColumn(reader.Data(), header, s).Some?
      ensures ok ==> ColumnValueSize(column.typ).Some?
      ensures ok ==>
        NextColumn(reader.Data(), header, s)
        == Some(Schema(reader.Pos(),
                       rowColumnOffset + (if IsDynamic(column) then ColumnValueSize(column.typ).value else 0),
                       s.columns + [column], if IsDynamic(column) then s.keys + [column.name] else s.keys,
                       if HasDefault(column.flag) then s.constants[column.name := value] else s.constants))
    {
      hide RawAt, ColumnValueSize, StringAt, Header.Strings;
      column, value := Column(0, 0, [], 0), StringPromise(0);
      var info, infoOk := reader.ReadBig(1);
      if !infoOk {
        return column, value, false;
      }
      OneByte(reader.Data(), reader.Pos() - 1);
      var nameOffset, offsetOk := reader.ReadBig(4);
      if !offsetOk {
        return column, value, false;
      }
      var flag, typ := info / 16, info % 16;
      if flag == 0 || !HasName(flag) || IsUndefined(flag) {
        return column, value, false;
      }
      var name := reader.ReadString0At((header.Strings() + nameOffset) % WORD32);
      if name.None? {
        return column, value, false;
      }
      var valSize := ColumnValueSize(typ);
      if valSize.None? {
        return column, value, false;
      }
      column := Column(flag, typ, name.value, 0);
      if HasDefault(flag) {
        var raw := ReadColumnRaw(typ);
        if raw.None? {
          return column, value, false;
        }
        value := raw.value;
      } else if HasRow(flag) {
        column := Column(flag, typ, name.value, rowColumnOffset);
      }
      ok := true;
    }

    /** A value in place; strings and data stay promises. */
    method ReadColumnRaw(typ: nat) returns (raw: Option<Raw>)
      modifies reader.Repr()
      ensures raw == RawAt(reader.Data(), old(reader.Pos()), typ)
      ensures raw.Some? ==> ColumnValueSize(typ).Some? && reader.Pos() == old(reader.Pos()) + ColumnValueSize(typ).value
    {
      hide BigValue;
      ghost var at := reader.Pos();
      if typ == 11 {
        var offset, ok := reader.ReadBig(4);
        if !ok {
          return None;
        }
        var size, ok' := reader.ReadBig(4);
        if !ok' {
          return None;
        }
        assert reader.Data()[at..at + 8][..4] == reader.Data()[at..at + 4];
        assert reader.Data()[at..at + 8][4..] == reader.Data()[at + 4..at + 8];
        return Some(DataPromise(offset, size));
      }
      var w := ColumnValueSize(typ);
      if w.None? {
        return None;
      }
      var n, ok := reader.ReadBig(w.value);
      if !ok {
        return None;
      }
      if typ == 10 {
        raw := Some(StringPromise(n));
      } else if typ == 8 {
        raw := Some(Direct(Float(n)));
      } else if typ % 2 == 0 {
        raw := Some(Direct(Unsigned(w.value, n)));
      } else {
        raw := Some(Direct(Signed(w.value, ToSigned(n, w.value))));
      }
    }

    method ResolvePromise(raw: Raw) returns (v: Option<Value>)
      modifies reader.Repr()
      ensures v == Resolve(reader.Data(), header, raw) && reader.Pos() == old(reader.Pos())
    {
      match raw
      case Direct(value) =>
        v := Some(value);
      case DataPromise(offset, size) =>
        var b := reader.ReadBytesAt(size, (header.Blobs() + offset) % WORD32);
        v := if b.None? then None else Some(Blob(b.value));
      case StringPromise(offset) =>
        var s := reader.ReadString0At((header.Strings() + offset) % WORD32);
        v := if s.None? then None else Some(Text(s.value));
    }

    method ResolveConstants() returns (resolved: Option<Row>)
      modifies reader.Repr()
      ensures resolved == Constants(reader.Data(), header, constants)
    {
      hide Resolve;
      var left, done: Row := constants.Keys, map[];
      while left != {}
        invariant left <= constants.Keys && done.Keys == constants.Keys - left
        invariant forall k :: k in done ==> Resolve(reader.Data(), header, constants[k]) == Some(done[k])
        decreases |left|
      {
        var k :| k in left;
        var v := ResolvePromise(constants[k]);
        if v.None? {
          return None;
        }
        done := done[k := v.value];
        left := left - {k};
      }
      ConstantsAre(reader.Data(), header, constants, done);
      resolved := Some(done);
    }

    method ReadRows() returns (ok: bool)
      modifies this`rows, reader.Repr()
      ensures var shared := Constants(reader.Data(), header, constants);
        if shared.None? then !ok
        else
          var r := RowsOf(reader.Data(), header, schema, shared.value, header.rows);
          ok == r.Some? && (ok ==> rows == r.value)
    {
      assert this !in reader.Repr();
      hide Constants, RowOf, Reader.Data, Reader.Pos, Reader.Repr;
      var resolved := ResolveConstants();
      if resolved.None? {
        return false;
      }
      var read: seq<Row> := [];
      for i := 0 to header.rows
        invariant RowsOf(reader.Data(), header, schema, resolved.value, i) == Some(read)
      {
        var row := ReadRow(i, resolved.value);
        if row.None? {
          RowsStay(reader.Data(), header, schema, resolved.value, i + 1, header.rows);
          return false;
        }
        read := read + [row.value];
      }
      rows := read;
      ok := true;
    }

    method ReadRow(i: nat, shared: Row) returns (row: Option<Row>)
      modifies reader.Repr()
      ensures row == RowOf(reader.Data(), header, schema, shared, i, |schema|)
    {
      hide RawAt, Resolve, FieldPos;
      var values := shared;
      for j := 0 to |schema|
        invariant RowOf(reader.Data(), header, schema, shared, i, j) == Some(values)
      {
        var col := schema[j];
        if !HasRow(col.flag) || HasDefault(col.flag) {
          continue;
        }
        reader.SeekStart(FieldPos(header, i, col.offset));
        var raw := ReadColumnRaw(col.typ);
        if raw.None? {
          RowStays(reader.Data(), header, schema, shared, i, j + 1, |schema|);
          return None;
        }
        var v := ResolvePromise(raw.value);
        if v.None? {
          RowStays(reader.Data(), header, schema, shared, i, j + 1, |schema|);
          return None;
        }
        values := values[col.name := v.value];
      }
      row := Some(values);
    }
  }

  lemma ConstantsAre(data: seq<byte>, h: Header, raws: map<seq<byte>, Raw>, done: Row)
    requires done.Keys == raws.Keys && forall k :: k in done ==> Resolve(data, h, raws[k]) == Some(done[k])
    ensures Constants(data, h, raws) == Some(done)
  {
    hide Resolve;
    assert forall k :: k in raws ==> k in done && Resolve(data, h, raws[k]) == Some(done[k]);
    assert Constants(data, h, raws).value == done;
  }

  lemma OneByte(data: seq<byte>, at: int)
    ensures 0 <= at < |data| ==> BigValue(data[at..at + 1]) == data[at]
  {
    if 0 <= at < |data| {
      assert data[at..at + 1] == [data[at]] && [data[at]][..0] == [];
    }
  }

  lemma {:induction false} SchemaStays(data: seq<byte>, h: Header, k: nat, n: nat)
    requires k <= n && SchemaOf(data, h, k).None?
    ensures SchemaOf(data, h, n).None?
    decreases n
  {
    hide NextColumn;
    if k < n {
      SchemaStays(data, h, k, n - 1);
    }
  }

  lemma {:induction false} RowStays(data: seq<byte>, h: Header, columns: seq<Column>, shared: Row, row: nat, k: nat, n: nat)
    requires k <= n <= |columns| && RowOf(data, h, columns, shared, row, k).None?
    ensures RowOf(data, h, columns, shared, row, n).None?
    decreases n
  {
    hide ValueAt;
    if k < n {
      RowStays(data, h, columns, shared, row, k, n - 1);
    }
  }

  lemma {:induction false} RowsStay(data: seq<byte>, h: Header, columns: seq<Column>, shared: Row, k: nat, n: nat)
    requires k <= n && RowsOf(data, h, columns, shared, k).None?
    ensures RowsOf(data, h, columns, shared, n).None?
    decreases n
  {
    hide RowOf;
    if k < n {
      RowsStay(data, h, columns, shared, k, n - 1);
    }
  }

  method NewUTFTable(reader: Reader) returns (table: Option<UTFTable>)
    requires reader.Pos() == 0
    modifies reader.Repr()
    ensures table.Some? == TableOf(reader.Data()).Some?
    ensures table.Some? ==> fresh(table.value) && table.value.Says(TableOf(reader.Data()).value)
  {
    hide BigValue, StringAt, SchemaOf, Constants, RowsOf;
    var h := ReadHeader(reader);
    if h.None? {
      return None;
    }
    if !h.value.Accepted() {
      return None;
    }
    var t := new UTFTable(reader, h.value);
    var name := reader.ReadString0At((h.value.Strings() + h.value.nameOffset) % WORD32);
    if name.None? {
      return None;
    }
    t.name := name.value;
    var schemaOk := t.ParseSchema();
    if !schemaOk {
      return None;
    }
    var rowsOk := t.ReadRows();
    if !rowsOk {
      return None;
    }
    table := Some(t);
  }

  /** A table inside a file: the bytes from the offset on mean what the table says. */
  method ReadDetailedUTFTable(base: Stream, offset: nat) returns (table: Option<UTFTable>)
    modifies base
    ensures table.Some? == TableOf(From(base.data, offset)).Some?
    ensures table.Some? ==> fresh(table.value) && table.value.Says(TableOf(From(base.data, offset)).value)
  {
    hide TableOf, From;
    var seeker := new OffsetReadSeeker(base, offset);
    var reader := new Reader(OnOffset(seeker));
    table := NewUTFTable(reader);
  }

  method ReadHeader(reader: Reader) returns (h: Option<Header>)
    requires reader.Pos() == 0
    modifies reader.Repr()
    ensures h == HeaderOf(reader.Data())
  {
    hide BigValue, Reader.Data, Reader.Pos, Reader.Repr;
    var magic, ok := reader.ReadBig(4);
    if !ok || magic != UTF_MAGIC {
      return None;
    }
    var tableSize, ok0 := reader.ReadBig(4);
    var version, ok1 := reader.ReadBig(2);
    var rowOffset, ok2 := reader.ReadBig(2);
    if !ok0 || !ok1 || !ok2 {
      return None;
    }
    var stringOffset, ok3 := reader.ReadBig(4);
    var dataOffset, ok4 := reader.ReadBig(4);
    var nameOffset, ok5 := reader.ReadBig(4);
    if !ok3 || !ok4 || !ok5 {
      return None;
    }
    var fields, ok6 := reader.ReadBig(2);
    var rowSize, ok7 := reader.ReadBig(2);
    var rows, ok8 := reader.ReadBig(4);
    if !ok6 || !ok7 || !ok8 {
      return None;
    }
    h := Some(Header(tableSize, rowOffset, stringOffset, dataOffset, nameOffset, fields, rowSize, rows));
  }
}

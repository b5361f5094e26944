/** electron/db-reader.ts: exporting the tracker's SQLite file to a JSON snapshot, and
    picking the activity rows back out of the snapshot. */
module DbReader {
  import opened Wrappers
  import opened Collation
  import Fernet

  type byte = Fernet.byte

  /** A value as the SQLite driver returns it. */
  datatype Value = Null | Integer(i: int) | Real(r: real) | Text(s: string) | Blob(bytes: seq<byte>)

  /** A row object: column names to values, in column order. */
  type Row = seq<(string, Value)>

  /** A table, as `sqlite_master` lists it, with its `PRAGMA table_info` columns and its
      rows in scan order. */
  datatype SqliteTable = SqliteTable(name: string, columns: seq<string>, rows: seq<Row>)

  /** The exported object: table names to row arrays, in insertion order. */
  type Snapshot = seq<(string, seq<Row>)>

  /** `serializeValue`: a buffer becomes its base64 text; anything else is kept. */
  function SerializeValue(v: Value, base64Encode: seq<byte> -> string): (r: Value)
    ensures !r.Blob?
    ensures !v.Blob? ==> r == v
    ensures v.Blob? ==> r == Text(base64Encode(v.bytes))
  {
    match v
    case Blob(b) => Text(base64Encode(b))
    case _ => v
  }

  /** Serializing twice is serializing once. */
  lemma SerializeIdempotent(v: Value, base64Encode: seq<byte> -> string)
    ensures SerializeValue(SerializeValue(v, base64Encode), base64Encode) == SerializeValue(v, base64Encode)
  {
  }

  /** The row with every value serialized, keys and their order kept. */
  predicate SerializedRow(row: Row, r: Row, base64Encode: seq<byte> -> string) {
    |r| == |row| && forall i :: 0 <= i < |row| ==> r[i] == (row[i].0, SerializeValue(row[i].1, base64Encode))
  }

  /** A row has one serialized form. */
  lemma SerializedRowUnique(row: Row, r1: Row, r2: Row, base64Encode: seq<byte> -> string)
    requires SerializedRow(row, r1, base64Encode) && SerializedRow(row, r2, base64Encode)
    ensures r1 == r2
  {
  }

  /** The loop over `Object.entries(row)` filling `serialized`. */
  method SerializeRow(row: Row, base64Encode: seq<byte> -> string) returns (serialized: Row)
    ensures SerializedRow(row, serialized, base64Encode)
  {
    serialized := [];
    for i := 0 to |row|
      invariant SerializedRow(row[..i], serialized, base64Encode)
    {
      var (key, value) := row[i];
      serialized := serialized + [(key, SerializeValue(value, base64Encode))];
    }
    assert row[..|row|] == row;
  }

  /** `rows.map(...)`. */
  method SerializeRows(rows: seq<Row>, base64Encode: seq<byte> -> string) returns (out: seq<Row>)
    ensures |out| == |rows|
    ensures forall i :: 0 <= i < |rows| ==> SerializedRow(rows[i], out[i], base64Encode)
  {
    out := [];
    for i := 0 to |rows|
      invariant |out| == i
      invariant forall k :: 0 <= k < i ==> SerializedRow(rows[k], out[k], base64Encode)
    {
      var serialized := SerializeRow(rows[i], base64Encode);
      out := out + [serialized];
    }
  }

  function Lookup<T>(entries: seq<(string, T)>, key: string): (r: Option<T>)
    ensures r.None? <==> forall i :: 0 <= i < |entries| ==> entries[i].0 != key
    ensures r.Some? ==> exists i :: 0 <= i < |entries| && entries[i] == (key, r.value)
  {
    if entries == [] then None
    else if entries[0].0 == key then Some(entries[0].1)
    else
      var r := Lookup(entries[1..], key);
      assert forall i :: 1 <= i < |entries| ==> entries[i] == entries[1..][i - 1];
      if r.Some? then
        ghost var i :| 0 <= i < |entries[1..]| && entries[1..][i] == (key, r.value);
        assert entries[i + 1] == (key, r.value);
        r
      else r
  }

  /** `start_time >= ?` with a text parameter, under SQLite's ordering of storage
      classes: NULL never satisfies it, numbers sort below text and blobs above, and
      text compares by code points. */
  predicate AtOrAfter(v: Option<Value>, cutoff: string) {
    match v
    case None => false
    case Some(Null) => false
    case Some(Integer(_)) => false
    case Some(Real(_)) => false
    case Some(Text(s)) => AtMost(cutoff, s)
    case Some(Blob(_)) => true
  }

  const StartTimeColumn := "start_time"
  const SequenceTable := "sqlite_sequence"

  /** The rows the export's query returns: all of them, or those at or after the cutoff
      when the table has a `start_time` column. */
  function SelectedRows(t: SqliteTable, cutoff: string): (r: seq<Row>)
    ensures |r| <= |t.rows|
    ensures StartTimeColumn !in t.columns ==> r == t.rows
    ensures StartTimeColumn in t.columns ==>
      forall i :: 0 <= i < |r| ==> r[i] in t.rows && AtOrAfter(Lookup(r[i], StartTimeColumn), cutoff)
  {
    if StartTimeColumn in t.columns then KeepSince(t.rows, cutoff) else t.rows
  }

  /** `WHERE start_time >= ?`, in scan order. */
  function KeepSince(rows: seq<Row>, cutoff: string): (r: seq<Row>)
    ensures |r| <= |rows|
    ensures forall i :: 0 <= i < |r| ==> r[i] in rows && AtOrAfter(Lookup(r[i], StartTimeColumn), cutoff)
    ensures forall i :: 0 <= i < |rows| && AtOrAfter(Lookup(rows[i], StartTimeColumn), cutoff) ==> rows[i] in r
  {
    if rows == [] then []
    else
      var rest := KeepSince(rows[1..], cutoff);
      assert forall i :: 1 <= i < |rows| ==> rows[i] == rows[1..][i - 1];
      if AtOrAfter(Lookup(rows[0], StartTimeColumn), cutoff) then [rows[0]] + rest else rest
  }

  /** The filter distributes over concatenation: together with `KeepSinceSingle` this fixes
      the order and the copies of what is exported. */
  lemma {:induction false} KeepSinceConcat(a: seq<Row>, b: seq<Row>, cutoff: string)
    ensures KeepSince(a + b, cutoff) == KeepSince(a, cutoff) + KeepSince(b, cutoff)
  {
    if a == [] {
      assert a + b == b;
    } else {
      var ab := a + b;
      assert ab[1..] == a[1..] + b;
      assert ab[0] == a[0];
      KeepSinceConcat(a[1..], b, cutoff);
      var rest := KeepSince(a[1..], cutoff);
      var tail := KeepSince(b, cutoff);
      if AtOrAfter(Lookup(a[0], StartTimeColumn), cutoff) {
        assert KeepSince(ab, cutoff) == [a[0]] + (rest + tail);
        assert KeepSince(a, cutoff) == [a[0]] + rest;
      } else {
        assert KeepSince(ab, cutoff) == rest + tail;
        assert KeepSince(a, cutoff) == rest;
      }
    }
  }

  /** Each row at or after the cutoff is kept as many times as it is stored; any other
      row is not kept at all. */
  lemma KeepSinceCopies(rows: seq<Row>, cutoff: string)
    ensures forall x :: multiset(KeepSince(rows, cutoff))[x] == if AtOrAfter(Lookup(x, StartTimeColumn), cutoff) then multiset(rows)[x] else 0
  {
    forall x ensures multiset(KeepSince(rows, cutoff))[x] == if AtOrAfter(Lookup(x, StartTimeColumn), cutoff) then multiset(rows)[x] else 0
    {
      KeepSinceCopiesOf(rows, cutoff, x);
    }
  }

  lemma {:induction false} KeepSinceCopiesOf(rows: seq<Row>, cutoff: string, x: Row)
    ensures multiset(KeepSince(rows, cutoff))[x] == if AtOrAfter(Lookup(x, StartTimeColumn), cutoff) then multiset(rows)[x] else 0
  {
    if rows != [] {
      var first := rows[0];
      var rest := rows[1..];
      KeepSinceCopiesOf(rest, cutoff, x);
      assert rows == [first] + rest;
      assert multiset(rows)[x] == multiset{first}[x] + multiset(rest)[x];
      var kept := KeepSince(rest, cutoff);
      if AtOrAfter(Lookup(first, StartTimeColumn), cutoff) {
        assert KeepSince(rows, cutoff) == [first] + kept;
        assert multiset([first] + kept)[x] == multiset{first}[x] + multiset(kept)[x];
      } else {
        assert KeepSince(rows, cutoff) == kept;
        assert AtOrAfter(Lookup(x, StartTimeColumn), cutoff) ==> multiset{first}[x] == 0;
      }
    }
  }

  /** A single row is kept exactly when it is at or after the cutoff. */
  lemma KeepSinceSingle(x: Row, cutoff: string)
    ensures KeepSince([x], cutoff) == if AtOrAfter(Lookup(x, StartTimeColumn), cutoff) then [x] else []
  {
    assert [x][1..] == [];
  }

  /** The rows of one table in the snapshot. */
  function ExportedRows(t: SqliteTable, cutoff: string, base64Encode: seq<byte> -> string): (r: seq<Row>)
    ensures |r| == |SelectedRows(t, cutoff)|
    ensures forall i :: 0 <= i < |r| ==> SerializedRow(SelectedRows(t, cutoff)[i], r[i], base64Encode)
  {
    var rows := SelectedRows(t, cutoff);
    seq(|rows|, i requires 0 <= i < |rows| =>
      seq(|rows[i]|, k requires 0 <= k < |rows[i]| => (rows[i][k].0, SerializeValue(rows[i][k].1, base64Encode))))
  }

  /** `data[key] = v` on an ordered object: an existing key keeps its place. */
  function Put(data: Snapshot, key: string, v: seq<Row>): (r: Snapshot)
    ensures Lookup(r, key) == Some(v)
    ensures forall k :: k != key ==> Lookup(r, k) == Lookup(data, k)
  {
    if data == [] then [(key, v)]
    else if data[0].0 == key then [(key, v)] + data[1..]
    else
      var rest := Put(data[1..], key, v);
      assert forall i :: 1 <= i < |data| ==> data[i] == data[1..][i - 1];
      [data[0]] + rest
  }

  /** The snapshot `exportToJson` builds from the tables in `sqlite_master` order. */
  function Export(tables: seq<SqliteTable>, cutoff: string, base64Encode: seq<byte> -> string): Snapshot
    decreases |tables|
  {
    if tables == [] then []
    else
      var t := tables[|tables| - 1];
      var data := Export(tables[..|tables| - 1], cutoff, base64Encode);
      if t.name == SequenceTable then data else Put(data, t.name, ExportedRows(t, cutoff, base64Encode))
  }

  /** `sqlite_sequence` is never exported; every other table is, under its own name,
      with the rows of the last table of that name. */
  lemma {:induction false} ExportKeys(tables: seq<SqliteTable>, cutoff: string, base64Encode: seq<byte> -> string, name: string)
    ensures Lookup(Export(tables, cutoff, base64Encode), SequenceTable).None?
    ensures name != SequenceTable ==>
      (Lookup(Export(tables, cutoff, base64Encode), name).Some? <==> exists i :: 0 <= i < |tables| && tables[i].name == name)
    decreases |tables|
  {
    if tables != [] {
      var init := tables[..|tables| - 1];
      var n := |tables| - 1;
      var t := tables[n];
      ExportKeys(init, cutoff, base64Encode, name);
      ExportLast(tables, cutoff, base64Encode);
      KeysStep(Export(init, cutoff, base64Encode), Export(tables, cutoff, base64Encode), t.name,
        ExportedRows(t, cutoff, base64Encode), name);
      NamedLast(tables, init, name);
    }
  }

  /** A name occurs in a list of tables exactly when it occurs before the last one or is
      the last one's. */
  lemma NamedLast(tables: seq<SqliteTable>, init: seq<SqliteTable>, name: string)
    requires tables != [] && init == tables[..|tables| - 1]
    ensures (exists i :: 0 <= i < |tables| && tables[i].name == name)
      <==> (exists i :: 0 <= i < |init| && init[i].name == name) || tables[|tables| - 1].name == name
  {
    if exists i :: 0 <= i < |tables| && tables[i].name == name {
      var i :| 0 <= i < |tables| && tables[i].name == name;
      if i < |tables| - 1 {
        assert init[i].name == name;
      }
    }
    if exists i :: 0 <= i < |init| && init[i].name == name {
      var i :| 0 <= i < |init| && init[i].name == name;
      assert tables[i].name == name;
    }
  }

  /** The last table decides the last step of the snapshot. */
  lemma ExportLast(tables: seq<SqliteTable>, cutoff: string, base64Encode: seq<byte> -> string)
    requires tables != []
    ensures var t := tables[|tables| - 1]; var data := Export(tables[..|tables| - 1], cutoff, base64Encode);
      Export(tables, cutoff, base64Encode)
        == if t.name == SequenceTable then data else Put(data, t.name, ExportedRows(t, cutoff, base64Encode))
  {
  }

  /** One step of the table loop, seen through the names it exports. */
  lemma KeysStep(data: Snapshot, out: Snapshot, tableName: string, rows: seq<Row>, name: string)
    requires out == if tableName == SequenceTable then data else Put(data, tableName, rows)
    ensures Lookup(data, SequenceTable).None? ==> Lookup(out, SequenceTable).None?
    ensures name != SequenceTable ==> (Lookup(out, name).Some? <==> Lookup(data, name).Some? || tableName == name)
  {
  }

  /** The exported rows of a table are its selected rows, serialized. */
  lemma {:induction false} ExportedTable(tables: seq<SqliteTable>, cutoff: string, base64Encode: seq<byte> -> string, i: nat)
    requires i < |tables| && tables[i].name != SequenceTable
    requires forall j :: i < j < |tables| ==> tables[j].name != tables[i].name
    ensures Lookup(Export(tables, cutoff, base64Encode), tables[i].name) == Some(ExportedRows(tables[i], cutoff, base64Encode))
    decreases |tables|
  {
    var init := tables[..|tables| - 1];
    if i < |tables| - 1 {
      assert init[i] == tables[i];
      ExportedTable(init, cutoff, base64Encode, i);
    }
  }

  /** What the export needs from the outside world. */
  datatype ExportEnvironment = ExportEnvironment(
    dbPath: string,
    dbFileExists: bool,
    openError: Option<string>,
    tables: seq<SqliteTable>,
    cutoff: string,
    base64Encode: seq<byte> -> string,
    writeError: Option<string>,
    outputPath: string)

  const ExportFailed := "Failed to export database: "

  function NotFoundMessage(dbPath: string): string {
    "ActivityTracker database not found at: " + dbPath + "\n\n"
      + "Please ensure ActivityTracker is installed and has generated data."
  }

  /** `exportToJson` as a function: the path of the written file, or the wrapped error,
      and the snapshot written, if any. */
  function ExportResult(env: ExportEnvironment): (Result<string>, Option<Snapshot>) {
    if !env.dbFileExists then (Err(ExportFailed + NotFoundMessage(env.dbPath)), None)
    else if env.openError.Some? then (Err(ExportFailed + env.openError.value), None)
    else if env.writeError.Some? then (Err(ExportFailed + env.writeError.value), None)
    else (Ok(env.outputPath), Some(Export(env.tables, env.cutoff, env.base64Encode)))
  }

  /** Every failure carries the prefix, and a file is written exactly on success. */
  lemma ExportErrorsWrapped(env: ExportEnvironment)
    ensures ExportResult(env).0.Err? ==>
      |ExportResult(env).0.error| >= |ExportFailed| && ExportResult(env).0.error[..|ExportFailed|] == ExportFailed
    ensures ExportResult(env).0.Ok? <==> ExportResult(env).1.Some?
  {
  }

  /** One more table extends the snapshot by one `Put`, or not at all for
      `sqlite_sequence`. */
  lemma ExportStep(tables: seq<SqliteTable>, i: nat, cutoff: string, base64Encode: seq<byte> -> string)
    requires i < |tables|
    ensures Export(tables[..i + 1], cutoff, base64Encode) ==
      if tables[i].name == SequenceTable then Export(tables[..i], cutoff, base64Encode)
      else Put(Export(tables[..i], cutoff, base64Encode), tables[i].name, ExportedRows(tables[i], cutoff, base64Encode))
  {
    assert tables[..i + 1][..i] == tables[..i];
  }

  /** Rows serialized one by one are the exported rows of their table. */
  lemma SerializedAreExported(t: SqliteTable, cutoff: string, base64Encode: seq<byte> -> string, out: seq<Row>)
    requires |out| == |SelectedRows(t, cutoff)|
    requires forall k :: 0 <= k < |out| ==> SerializedRow(SelectedRows(t, cutoff)[k], out[k], base64Encode)
    ensures out == ExportedRows(t, cutoff, base64Encode)
  {
    var e := ExportedRows(t, cutoff, base64Encode);
    forall k | 0 <= k < |out| ensures out[k] == e[k] {
      SerializedRowUnique(SelectedRows(t, cutoff)[k], out[k], e[k], base64Encode);
    }
  }

  /** The table loop of `exportToJson`. */
  method ExportTables(tables: seq<SqliteTable>, cutoff: string, base64Encode: seq<byte> -> string) returns (data: Snapshot)
    ensures data == Export(tables, cutoff, base64Encode)
  {
    data := [];
    for i := 0 to |tables|
      invariant data == Export(tables[..i], cutoff, base64Encode)
    {
      ExportStep(tables, i, cutoff, base64Encode);
      var tableName := tables[i].name;
      if tableName == SequenceTable {
        continue;
      }
      var hasStartTime := StartTimeColumn in tables[i].columns;
      var rows := if hasStartTime then KeepSince(tables[i].rows, cutoff) else tables[i].rows;
      var serialized := SerializeRows(rows, base64Encode);
      SerializedAreExported(tables[i], cutoff, base64Encode, serialized);
      data := Put(data, tableName, serialized);
    }
    assert tables[..|tables|] == tables;
  }

  method ExportToJson(env: ExportEnvironment) returns (r: Result<string>, written: Option<Snapshot>)
    ensures (r, written) == ExportResult(env)
  {
    if !env.dbFileExists {
      return Err(ExportFailed + NotFoundMessage(env.dbPath)), None;
    }
    if env.openError.Some? {
      return Err(ExportFailed + env.openError.value), None;
    }
    var data := ExportTables(env.tables, env.cutoff, env.base64Encode);
    if env.writeError.Some? {
      return Err(ExportFailed + env.writeError.value), None;
    }
    r, written := Ok(env.outputPath), Some(data);
  }

  const ReadFailed := "Failed to read activity data. Please export the database first."

  /** `readActivityData` on the snapshot file's contents (`None` when it cannot be read
      or parsed): `activities`, else `activity`, else the first table, else nothing.
      An array is truthy even when empty. */
  function ReadActivityData(file: Option<Snapshot>): (r: Result<seq<Row>>)
    ensures file.None? <==> r == Err(ReadFailed)
  {
    match file
    case None => Err(ReadFailed)
    case Some(data) =>
      match Lookup(data, "activities")
      case Some(rows) => Ok(rows)
      case None =>
        match Lookup(data, "activity")
        case Some(rows) => Ok(rows)
        case None => if data == [] then Ok([]) else Ok(data[0].1)
  }

  /** After an export from a file with an `activities` table, reading gives that
      table's exported rows; with neither name, the first exported table's rows. */
  lemma ReadAfterExport(tables: seq<SqliteTable>, cutoff: string, base64Encode: seq<byte> -> string, i: nat)
    requires i < |tables| && tables[i].name == "activities"
    requires forall j :: i < j < |tables| ==> tables[j].name != "activities"
    ensures ReadActivityData(Some(Export(tables, cutoff, base64Encode))) == Ok(ExportedRows(tables[i], cutoff, base64Encode))
  {
    ExportedTable(tables, cutoff, base64Encode, i);
  }

  /** The selection order: `activities` before `activity` before the first table. */
  lemma ReadPrefersActivities(data: Snapshot)
    ensures Lookup(data, "activities").Some? ==> ReadActivityData(Some(data)) == Ok(Lookup(data, "activities").value)
    ensures Lookup(data, "activities").None? && Lookup(data, "activity").Some? ==>
      ReadActivityData(Some(data)) == Ok(Lookup(data, "activity").value)
    ensures Lookup(data, "activities").None? && Lookup(data, "activity").None? ==>
      ReadActivityData(Some(data)) == Ok(if data == [] then [] else data[0].1)
  {
  }
}

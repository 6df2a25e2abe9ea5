/**
 * The usage record of an insertion into the media store (MediaProviderInsertRecord.kt): the
 * record, the lists it hands to its `MediaProviderRecord` superclass, and `convert`, which reads
 * the records out of a database cursor.
 */
module UsageRecord {
  import opened Wrappers

  /** Kotlin's `Long` and `Int`. */
  newtype Int64 = x: int | -0x8000_0000_0000_0000 <= x < 0x8000_0000_0000_0000
  newtype Int32 = x: int | -0x8000_0000 <= x < 0x8000_0000

  /** One insertion into the media store, as stored in its table (`uriMatch` is the `match` column). */
  datatype MediaProviderInsertRecord = MediaProviderInsertRecord(
    timeMillis: Int64, packageName: string, uriMatch: Int32, data: string, mimeType: string, intercepted: bool)

  /** The superclass view shared by all usage records: per-item lists of data, MIME types and verdicts. */
  datatype MediaProviderRecord = MediaProviderRecord(
    timeMillis: Int64, packageName: string, data: seq<string>, mimeType: seq<string>, intercepted: seq<bool>)

  /** The superclass part of an insert record: one item, so singleton lists. */
  function AsMediaProviderRecord(r: MediaProviderInsertRecord): (s: MediaProviderRecord)
    ensures s.timeMillis == r.timeMillis && s.packageName == r.packageName
    ensures |s.data| == |s.mimeType| == |s.intercepted| == 1
    ensures s.data[0] == r.data && s.mimeType[0] == r.mimeType && s.intercepted[0] == r.intercepted
  {
    MediaProviderRecord(r.timeMillis, r.packageName, [r.data], [r.mimeType], [r.intercepted])
  }

  /** One cell of a cursor row, with what the cursor's `getLong`, `getInt` and `getString` read from it. */
  datatype Cell = Cell(asLong: Int64, asInt: Int32, asString: string)

  /** The exception `getColumnIndexOrThrow` throws: a column of this name does not exist. */
  datatype MissingColumn = MissingColumn(columnName: string)

  /** The column indices `convert` looks up, in lookup order. */
  datatype Columns = Columns(timeMillis: nat, packageName: nat, uriMatch: nat, data: nat, mimeType: nat, intercepted: nat)

  /** The first index of `name` among the column names, or none. */
  function ColumnIndex(columnNames: seq<string>, name: string): (r: Option<nat>)
    ensures r.None? <==> name !in columnNames
    ensures r.Some? ==>
      && r.value < |columnNames| && columnNames[r.value] == name
      && forall i :: 0 <= i < r.value ==> columnNames[i] != name
  {
    if columnNames == [] then None
    else if columnNames[0] == name then Some(0)
    else
      match ColumnIndex(columnNames[1..], name)
      case None => None
      case Some(i) => Some(i + 1)
  }

  /** `getColumnIndexOrThrow`. */
  function ColumnIndexOrThrow(columnNames: seq<string>, name: string): (r: Result<nat, MissingColumn>)
    ensures r.Failure? <==> name !in columnNames
    ensures r.Failure? ==> r.error == MissingColumn(name)
    ensures r.Success? ==> r.value < |columnNames| && columnNames[r.value] == name
  {
    match ColumnIndex(columnNames, name)
    case None => Failure(MissingColumn(name))
    case Some(i) => Success(i)
  }

  /** The six column names `convert` needs, in the order it looks them up. */
  const ColumnNames: seq<string> := ["time_millis", "package_name", "match", "data", "mime_type", "intercepted"]

  /** `getColumnIndexOrThrow` on each of `names` in turn: the indices, or the first name that is missing. */
  function LookupAll(columnNames: seq<string>, names: seq<string>): (r: Result<seq<nat>, MissingColumn>)
    ensures r.Success? <==> forall k :: 0 <= k < |names| ==> names[k] in columnNames
    ensures r.Success? ==>
      && |r.value| == |names|
      && forall k :: 0 <= k < |names| ==> r.value[k] < |columnNames| && columnNames[r.value[k]] == names[k]
    ensures r.Failure? ==> exists k :: FirstMissing(columnNames, names, k) && r.error == MissingColumn(names[k])
  {
    if names == [] then Success([])
    else
      match ColumnIndexOrThrow(columnNames, names[0])
      case Failure(e) =>
        assert FirstMissing(columnNames, names, 0);
        Failure(e)
      case Success(first) =>
        match LookupAll(columnNames, names[1..])
        case Failure(e) =>
          var k :| FirstMissing(columnNames, names[1..], k) && e == MissingColumn(names[1..][k]);
          assert FirstMissing(columnNames, names, k + 1);
          Failure(e)
        case Success(rest) =>
          Success([first] + rest)
  }

  /** `names[k]` is the first of `names` that is not a column name. */
  predicate FirstMissing(columnNames: seq<string>, names: seq<string>, k: int)
  {
    && 0 <= k < |names|
    && names[k] !in columnNames
    && forall j :: 0 <= j < k ==> names[j] in columnNames
  }

  /** The six lookups at the head of `convert`: the first missing column throws, before any row is read. */
  function ResolveColumns(columnNames: seq<string>): (r: Result<Columns, MissingColumn>)
    ensures r.Success? <==> forall k :: 0 <= k < |ColumnNames| ==> ColumnNames[k] in columnNames
    ensures r.Failure? ==> exists k :: FirstMissing(columnNames, ColumnNames, k) && r.error == MissingColumn(ColumnNames[k])
    ensures r.Success? ==>
      var c := r.value;
      && c.timeMillis < |columnNames| && columnNames[c.timeMillis] == "time_millis"
      && c.packageName < |columnNames| && columnNames[c.packageName] == "package_name"
      && c.uriMatch < |columnNames| && columnNames[c.uriMatch] == "match"
      && c.data < |columnNames| && columnNames[c.data] == "data"
      && c.mimeType < |columnNames| && columnNames[c.mimeType] == "mime_type"
      && c.intercepted < |columnNames| && columnNames[c.intercepted] == "intercepted"
  {
    var ix :- LookupAll(columnNames, ColumnNames);
    Success(Columns(ix[0], ix[1], ix[2], ix[3], ix[4], ix[5]))
  }

  /** Every column index lies within a row of `width` cells. */
  predicate ColumnsWithin(c: Columns, width: nat)
  {
    c.timeMillis < width && c.packageName < width && c.uriMatch < width &&
    c.data < width && c.mimeType < width && c.intercepted < width
  }

  /** The record one cursor row holds: five columns copied, `intercepted` decoded from a long. */
  function DecodeRow(row: seq<Cell>, c: Columns): (r: MediaProviderInsertRecord)
    requires ColumnsWithin(c, |row|)
    ensures r.timeMillis == row[c.timeMillis].asLong && r.packageName == row[c.packageName].asString
    ensures r.uriMatch == row[c.uriMatch].asInt && r.data == row[c.data].asString && r.mimeType == row[c.mimeType].asString
    ensures r.intercepted <==> row[c.intercepted].asLong != 0
  {
    MediaProviderInsertRecord(
      row[c.timeMillis].asLong,
      row[c.packageName].asString,
      row[c.uriMatch].asInt,
      row[c.data].asString,
      row[c.mimeType].asString,
      row[c.intercepted].asLong != 0)
  }

  /** A query result: its column names, its rows, and the current position (-1 before the first row,
    * the row count after the last). */
  class Cursor {
    const columnNames: seq<string>
    const rows: seq<seq<Cell>>
    var position: int

    ghost predicate Valid()
      reads this
    {
      && -1 <= position <= |rows|
      && forall i :: 0 <= i < |rows| ==> |rows[i]| == |columnNames|
    }

    constructor (columnNames: seq<string>, rows: seq<seq<Cell>>)
      requires forall i :: 0 <= i < |rows| ==> |rows[i]| == |columnNames|
      ensures Valid() && this.columnNames == columnNames && this.rows == rows && position == -1
    {
      this.columnNames := columnNames;
      this.rows := rows;
      position := -1;
    }

    /** How many rows lie at or before the current position. */
    function Consumed(): (n: nat)
      reads this
      requires Valid()
      ensures n <= |rows|
    {
      if position + 1 < |rows| then position + 1 else |rows|
    }

    /** `moveToNext`: advance by one row, stopping after the last. */
    method MoveToNext() returns (moved: bool)
      requires Valid()
      modifies this
      ensures Valid()
      ensures moved <==> old(position) + 1 < |rows|
      ensures position == if moved then old(position) + 1 else |rows|
    {
      if position + 1 < |rows| {
        position := position + 1;
        moved := true;
      } else {
        position := |rows|;
        moved := false;
      }
    }
  }

  /** The records of a run of rows, in row order. */
  function DecodeRows(rows: seq<seq<Cell>>, c: Columns): (records: seq<MediaProviderInsertRecord>)
    requires forall i :: 0 <= i < |rows| ==> ColumnsWithin(c, |rows[i]|)
    ensures |records| == |rows|
    ensures forall i :: 0 <= i < |rows| ==> records[i] == DecodeRow(rows[i], c)
  {
    if rows == [] then [] else DecodeRows(rows[..|rows| - 1], c) + [DecodeRow(rows[|rows| - 1], c)]
  }

  /** `convert`: look up the six columns, then one record per remaining row, in cursor order. */
  method Convert(cursor: Cursor) returns (r: Result<seq<MediaProviderInsertRecord>, MissingColumn>)
    requires cursor.Valid()
    modifies cursor
    ensures cursor.Valid()
    ensures ResolveColumns(cursor.columnNames).Failure? ==>
      r == Failure(ResolveColumns(cursor.columnNames).error) && cursor.position == old(cursor.position)
    ensures ResolveColumns(cursor.columnNames).Success? ==>
      var c := ResolveColumns(cursor.columnNames).value;
      && r.Success?
      && |r.value| == |cursor.rows| - old(cursor.Consumed())
      && (forall i :: old(cursor.Consumed()) <= i < |cursor.rows| ==> ColumnsWithin(c, |cursor.rows[i]|))
      && r.value == DecodeRows(cursor.rows[old(cursor.Consumed())..], c)
      && cursor.position == |cursor.rows|
  {
    var columns := ResolveColumns(cursor.columnNames);
    if columns.Failure? {
      return Failure(columns.error);
    }
    var c := columns.value;
    ghost var start := cursor.Consumed();
    var records: seq<MediaProviderInsertRecord> := [];
    while true
      invariant cursor.Valid()
      invariant start <= cursor.Consumed()
      invariant records == DecodeRows(cursor.rows[start..cursor.Consumed()], c)
      decreases |cursor.rows| - cursor.position
    {
      ghost var before := cursor.Consumed();
      var moved := cursor.MoveToNext();
      if !moved {
        break;
      }
      var row := cursor.rows[cursor.position];
      assert cursor.rows[start..cursor.Consumed()] == cursor.rows[start..before] + [row];
      records := records + [DecodeRow(row, c)];
    }
    return Success(records);
  }
}

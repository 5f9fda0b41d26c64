/** The local CSV cache as the repositories see it: a file per cache path,
    read into a table of rows and mapped row by row to entities, or written
    from entities row by row. The CSV text codec and the resolution of a
    path template into a file name are external; a cache path is kept as the
    arguments handed to that resolution. */
module CsvCache {
  import opened Results

  /** The arguments of `FileUtils.GetCacheDataFilePath`: a configuration key
      and either named placeholder values or positional values. */
  datatype CachePath =
    | Named(pathKey: string, values: map<string, string>)
    | Positional(pathKey: string, args: seq<string>)

  /** A file present at a cache path: a table `CsvFileUtils` can read, or
      one whose reading throws. */
  datatype CsvFile<Row> = Table(rows: seq<Row>) | Unreadable

  /** The cache directory: which paths hold a file, and what. */
  type Files<Row> = map<CachePath, CsvFile<Row>>

  /** `rows.Select(toEntity).ToList()`: one entity per row, in row order; a
      row that cannot be converted makes the whole conversion throw. */
  function DecodeRows<Row, R>(rows: seq<Row>, toEntity: Row -> Option<R>): (r: Option<seq<R>>)
    ensures r.Some? <==> forall i :: 0 <= i < |rows| ==> toEntity(rows[i]).Some?
    ensures r.Some? ==> |r.value| == |rows|
    ensures r.Some? ==> forall i :: 0 <= i < |rows| ==> toEntity(rows[i]) == Some(r.value[i])
  {
    if rows == [] then Some([])
    else
      match (toEntity(rows[0]), DecodeRows(rows[1..], toEntity))
      case (Some(e), Some(es)) => Some([e] + es)
      case _ => None
  }

  /** `DataTableUtils.ToDataTable(data)`: one row per entity, in order. */
  function EncodeRows<R, Row>(data: seq<R>, toRow: R -> Row): (rows: seq<Row>)
    ensures |rows| == |data|
    ensures forall i :: 0 <= i < |data| ==> rows[i] == toRow(data[i])
  {
    if data == [] then [] else [toRow(data[0])] + EncodeRows(data[1..], toRow)
  }

  /** Converting each of `data` to a row and back gives it back. */
  ghost predicate RoundTrips<R, Row>(data: seq<R>, toEntity: Row -> Option<R>, toRow: R -> Row) {
    forall i :: 0 <= i < |data| ==> toEntity(toRow(data[i])) == Some(data[i])
  }

  lemma {:induction false} DecodeEncode<R, Row>(data: seq<R>, toEntity: Row -> Option<R>, toRow: R -> Row)
    requires RoundTrips(data, toEntity, toRow)
    ensures DecodeRows(EncodeRows(data, toRow), toEntity) == Some(data)
  {
    if data != [] {
      assert RoundTrips(data[1..], toEntity, toRow) by {
        forall i | 0 <= i < |data| - 1 ensures toEntity(toRow(data[1..][i])) == Some(data[1..][i]) {
          assert data[1..][i] == data[i + 1];
        }
      }
      var rows := EncodeRows(data, toRow);
      assert rows[1..] == EncodeRows(data[1..], toRow);
      DecodeEncode(data[1..], toEntity, toRow);
      assert toEntity(rows[0]) == Some(data[0]);
      assert [data[0]] + data[1..] == data;
    }
  }

  /** Reading the cache file at `path` and converting its rows: `null` when
      there is no file, the converted rows when there is one, an exception
      when the file or one of its rows cannot be read. */
  function ReadLocalCsv<Row, R>(files: Files<Row>, path: CachePath, toEntity: Row -> Option<R>): (r: Reply<R>)
    ensures r.Null? <==> path !in files
    ensures r.Rows? <==> path in files && files[path].Table? && DecodeRows(files[path].rows, toEntity).Some?
    ensures r.Rows? ==> |r.rows| == |files[path].rows|
    ensures r.Rows? ==> forall i :: 0 <= i < |r.rows| ==> toEntity(files[path].rows[i]) == Some(r.rows[i])
  {
    if path !in files then Null
    else
      match files[path]
      case Unreadable => Fault
      case Table(rows) =>
        match DecodeRows(rows, toEntity)
        case None => Fault
        case Some(entities) => Rows(entities)
  }

  /** Storing `rows` at `path`: overwriting, or appending to a readable table
      already there. Every other path keeps its file. */
  function SaveLocalCsv<Row>(files: Files<Row>, path: CachePath, rows: seq<Row>, appendMode: bool): (files': Files<Row>)
    ensures files'.Keys == files.Keys + {path}
    ensures forall p :: p in files && p != path ==> files'[p] == files[p]
    ensures !appendMode ==> files'[path] == Table(rows)
    ensures appendMode && path in files && files[path].Table? ==> files'[path] == Table(files[path].rows + rows)
  {
    if appendMode && path in files then
      match files[path]
      case Table(existing) => files[path := Table(existing + rows)]
      case Unreadable => files
    else files[path := Table(rows)]
  }

  /** After an overwriting save of `data`, a read of the same path returns
      `data` again, even when `data` is empty: an empty file reads as an
      empty list, not as `null`. */
  lemma SaveThenRead<R, Row>(files: Files<Row>, path: CachePath, data: seq<R>, toEntity: Row -> Option<R>, toRow: R -> Row)
    requires RoundTrips(data, toEntity, toRow)
    ensures ReadLocalCsv(SaveLocalCsv(files, path, EncodeRows(data, toRow), false), path, toEntity) == Rows(data)
  {
    DecodeEncode(data, toEntity, toRow);
  }

  /** The cache directory as a mutable object shared by the repositories. */
  class FileStore<Row> {
    var files: Files<Row>

    constructor (files: Files<Row>)
      ensures this.files == files
    {
      this.files := files;
    }

    /** `CsvFileUtils.WriteToCsvFile(path, table)` when it succeeds. */
    method WriteToCsvFile(path: CachePath, rows: seq<Row>)
      modifies this
      ensures files == old(files)[path := Table(rows)]
    {
      files := files[path := Table(rows)];
    }

    /** The base repository's `saveToLocalCsv(path, data, appendMode)`. */
    method SaveToLocalCsv(path: CachePath, rows: seq<Row>, appendMode: bool)
      modifies this
      ensures files == SaveLocalCsv(old(files), path, rows, appendMode)
    {
      files := SaveLocalCsv(files, path, rows, appendMode);
    }
  }
}

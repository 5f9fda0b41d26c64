/** `SequentialByDayRepository<T>`: records cached one file per
    (tag, code, calendar day), fetched from the local CSV cache, Wind or the
    default MSSQL source for one date. Unlike the per-year model, its save
    skips empty data and swallows a failing write. */
module ByDay {
  import opened Results
  import opened Dates
  import opened CsvCache
  import opened SourceChain

  /** The configuration key of the path template for per-day files. */
  const PathKey: string := "CacheData.Path.SequentialByDay"

  /** The arguments `readFromWind` and `readFromDefaultMssql` receive. */
  datatype Request = Request(code: string, date: DateTime)

  /** The cache path of a day: the tag (the type name when absent), the code
      and the date rendered `yyyyMMdd`, as positional template values. */
  function CacheDataFilePath(typeName: string, code: string, date: DateTime, tag: Option<string>): (p: CachePath)
    ensures p.Positional? && p.pathKey == PathKey && |p.args| == 3
    ensures p.args[0] == tag.GetOr(typeName) && p.args[1] == code
    ensures ParseYyyymmdd(p.args[2]) == Some((date.year, date.month, date.day))
  {
    ParseInvertsYyyymmdd(date);
    Positional(PathKey, [tag.GetOr(typeName), code, Yyyymmdd(date)])
  }

  /** Two per-day cache paths coincide exactly when their effective tags and
      codes are equal and their dates fall on the same day; the time of day
      never matters. */
  lemma CacheDataFilePathIdentifiesKey(typeName: string, code1: string, date1: DateTime, tag1: Option<string>,
                                       code2: string, date2: DateTime, tag2: Option<string>)
    ensures CacheDataFilePath(typeName, code1, date1, tag1) == CacheDataFilePath(typeName, code2, date2, tag2)
        <==> tag1.GetOr(typeName) == tag2.GetOr(typeName) && code1 == code2 && SameDay(date1, date2)
  {
    YyyymmddIdentifiesDay(date1, date2);
    var p1 := CacheDataFilePath(typeName, code1, date1, tag1);
    var p2 := CacheDataFilePath(typeName, code2, date2, tag2);
    if p1 == p2 {
      assert p1.args[2] == p2.args[2];
    }
  }

  /** `readFromLocalCsv(code, date, tag)`: `null` exactly when there is no
      cache file for the key; otherwise one entity per row, in row order. */
  function ReadFromLocalCsv<R, Row>(cfg: Config<Request, R, Row>, files: Files<Row>, code: string,
                                    date: DateTime, tag: Option<string>): (r: Reply<R>)
    ensures r.Null? <==> CacheDataFilePath(cfg.typeName, code, date, tag) !in files
    ensures r.Rows? ==>
              var file := files[CacheDataFilePath(cfg.typeName, code, date, tag)];
              && file.Table?
              && |r.rows| == |file.rows|
              && forall i :: 0 <= i < |r.rows| ==> cfg.toEntity(file.rows[i]) == Some(r.rows[i])
  {
    ReadLocalCsv(files, CacheDataFilePath(cfg.typeName, code, date, tag), cfg.toEntity)
  }

  /** The cache after `saveToLocalCsvFile(data, code, date, tag)`: nothing is
      written for null or empty data, nor when the write throws (`writeFault`);
      otherwise the key's file is overwritten with the data's rows. */
  function AfterSave<R, Row>(cfg: Config<Request, R, Row>, files: Files<Row>, data: Option<seq<R>>, code: string,
                             date: DateTime, tag: Option<string>, writeFault: bool): (files': Files<Row>)
    ensures var path := CacheDataFilePath(cfg.typeName, code, date, tag);
            || files' == files
            || (&& data.Some? && data.value != [] && !writeFault
                && files' == files[path := Table(EncodeRows(data.value, cfg.toRow))])
    ensures data.Some? && data.value != [] && !writeFault ==>
              var path := CacheDataFilePath(cfg.typeName, code, date, tag);
              path in files' && files'[path] == Table(EncodeRows(data.value, cfg.toRow))
  {
    if data.None? || |data.value| == 0 || writeFault then files
    else files[CacheDataFilePath(cfg.typeName, code, date, tag) := Table(EncodeRows(data.value, cfg.toRow))]
  }

  /** A save either writes the key's file with the data, or changes nothing;
      it changes nothing for null or empty data, and never touches another key. */
  lemma SaveWritesOnlyItsKey<R, Row>(cfg: Config<Request, R, Row>, files: Files<Row>, data: Option<seq<R>>, code: string,
                                     date: DateTime, tag: Option<string>, writeFault: bool, p: CachePath)
    requires p != CacheDataFilePath(cfg.typeName, code, date, tag)
    ensures p in AfterSave(cfg, files, data, code, date, tag, writeFault) <==> p in files
    ensures p in files ==> AfterSave(cfg, files, data, code, date, tag, writeFault)[p] == files[p]
    ensures data.None? || data.value == [] ==> AfterSave(cfg, files, data, code, date, tag, writeFault) == files
  {
  }

  /** A save that writes can be read back: the same key then yields the data. */
  lemma SaveThenRead<R, Row>(cfg: Config<Request, R, Row>, files: Files<Row>, data: seq<R>, code: string,
                             date: DateTime, tag: Option<string>)
    requires data != []
    requires RoundTrips(data, cfg.toEntity, cfg.toRow)
    ensures ReadFromLocalCsv(cfg, AfterSave(cfg, files, Some(data), code, date, tag, false), code, date, tag) == Rows(data)
  {
    CsvCache.SaveThenRead(files, CacheDataFilePath(cfg.typeName, code, date, tag), data, cfg.toEntity, cfg.toRow);
  }

  /** What `fetch0(code, date, tag, ...)` would leave behind; `writeFault`
      says whether writing the cache file would throw. Each remote source is
      called at most once, and the cache changes only when saving is on, the
      write succeeds and the result is a non-empty list. */
  function Fetch<R, Row>(cfg: Config<Request, R, Row>, files: Files<Row>, code: string, date: DateTime,
                         tag: Option<string>, f: Flags, writeFault: bool): (e: Effect<Request, R, Row>)
    ensures |e.windRequests| <= 1 && |e.mssqlRequests| <= 1
    ensures e.files != files ==> f.saveToCsv && !writeFault && e.out.Returned? && e.out.list != []
  {
    var t := tag.GetOr(cfg.typeName);
    var q := Request(code, date);
    var rs := Replies(ReadFromLocalCsv(cfg, files, code, date, Some(t)), cfg.wind(q), cfg.mssql(q));
    var w := Run(f, rs);
    Effect(Outcome(w),
           if WritesBack(f, rs) then AfterSave(cfg, files, Some(w.hit.value.1), code, date, Some(t), writeFault) else files,
           Logged(w.consulted, Wind, q), Logged(w.consulted, Mssql, q))
  }

  /** A failing cache write is swallowed: the fetch returns what it would
      have returned, after the same source calls, and the cache is untouched. */
  lemma WriteFaultSwallowed<R, Row>(cfg: Config<Request, R, Row>, files: Files<Row>, code: string, date: DateTime,
                                    tag: Option<string>, f: Flags)
    ensures var failed := Fetch(cfg, files, code, date, tag, f, true);
            var written := Fetch(cfg, files, code, date, tag, f, false);
            && failed.out == written.out
            && failed.windRequests == written.windRequests
            && failed.mssqlRequests == written.mssqlRequests
            && failed.files == files
  {
  }

  /** An empty result is never cached in the per-day scheme. */
  lemma EmptyResultNotCached<R, Row>(cfg: Config<Request, R, Row>, files: Files<Row>, code: string, date: DateTime,
                                     tag: Option<string>, f: Flags, writeFault: bool)
    requires Fetch(cfg, files, code, date, tag, f, writeFault).out == Returned([])
    ensures Fetch(cfg, files, code, date, tag, f, writeFault).files == files
  {
  }

  /** So when the cache had no file and a remote source answered with zero
      rows, a later cache-only fetch of the key still finds no file and throws. */
  lemma EmptyRemoteResultNotServedLater<R, Row>(cfg: Config<Request, R, Row>, files: Files<Row>, code: string, date: DateTime,
                                                tag: Option<string>, f: Flags, writeFault: bool)
    requires CacheDataFilePath(cfg.typeName, code, date, tag) !in files
    requires Fetch(cfg, files, code, date, tag, f, writeFault).out == Returned([])
    ensures var e := Fetch(cfg, files, code, date, tag, f, writeFault);
            Fetch(cfg, e.files, code, date, tag, FromLocalCsv, writeFault) == Effect(Threw(NullReference), files, [], [])
  {
    var t := tag.GetOr(cfg.typeName);
    var q := Request(code, date);
    assert CacheDataFilePath(cfg.typeName, code, date, Some(t)) == CacheDataFilePath(cfg.typeName, code, date, tag);
    LocalCsvOnly(Replies(ReadFromLocalCsv(cfg, files, code, date, Some(t)), cfg.wind(q), cfg.mssql(q)));
  }

  /** After a fetch with saving on returns a non-empty list and the write
      succeeds, a cache-only fetch of the key returns that list again, without
      a remote call or a write. */
  lemma SavedResultServedFromCache<R, Row>(cfg: Config<Request, R, Row>, files: Files<Row>, code: string, date: DateTime,
                                           tag: Option<string>, f: Flags)
    requires f.saveToCsv
    requires Fetch(cfg, files, code, date, tag, f, false).out.Returned?
    requires Fetch(cfg, files, code, date, tag, f, false).out.list != []
    requires RoundTrips(Fetch(cfg, files, code, date, tag, f, false).out.list, cfg.toEntity, cfg.toRow)
    ensures var e := Fetch(cfg, files, code, date, tag, f, false);
            Fetch(cfg, e.files, code, date, tag, FromLocalCsv, false) == Effect(e.out, e.files, [], [])
  {
    var e := Fetch(cfg, files, code, date, tag, f, false);
    var t := tag.GetOr(cfg.typeName);
    var q := Request(code, date);
    var rs := Replies(ReadFromLocalCsv(cfg, files, code, date, Some(t)), cfg.wind(q), cfg.mssql(q));
    var w := Run(f, rs);
    WriteBackIff(f, rs);
    if WritesBack(f, rs) {
      SaveThenRead(cfg, files, w.hit.value.1, code, date, Some(t));
    } else {
      HitIff(f, rs, Csv, w.hit.value.1);
    }
    var rs2 := Replies(ReadFromLocalCsv(cfg, e.files, code, date, Some(t)), cfg.wind(q), cfg.mssql(q));
    assert rs2.csv == Rows(e.out.list);
    LocalCsvOnly(rs2);
  }

  /** `fetchFromLocalCsv` never calls a remote source and never saves. */
  lemma FetchFromLocalCsvReadsOnly<R, Row>(cfg: Config<Request, R, Row>, files: Files<Row>, code: string, date: DateTime,
                                           tag: Option<string>, writeFault: bool)
    ensures var e := Fetch(cfg, files, code, date, tag, FromLocalCsv, writeFault);
            e.files == files && e.windRequests == [] && e.mssqlRequests == []
  {
    var t := tag.GetOr(cfg.typeName);
    var q := Request(code, date);
    LocalCsvOnly(Replies(ReadFromLocalCsv(cfg, files, code, date, Some(t)), cfg.wind(q), cfg.mssql(q)));
  }

  /** A repository instance: its supplied parts, the cache it shares, and the
      requests its two remote reads have received so far. */
  class SequentialByDayRepository<R, Row> {
    const cfg: Config<Request, R, Row>
    const store: FileStore<Row>
    var windCalls: seq<Request>
    var mssqlCalls: seq<Request>

    constructor (cfg: Config<Request, R, Row>, store: FileStore<Row>)
      ensures this.cfg == cfg && this.store == store
      ensures windCalls == [] && mssqlCalls == []
    {
      this.cfg := cfg;
      this.store := store;
      windCalls := [];
      mssqlCalls := [];
    }

    /** The overridden `readFromWind`. */
    method ReadFromWind(q: Request) returns (r: Reply<R>)
      modifies this`windCalls
      ensures r == cfg.wind(q) && windCalls == old(windCalls) + [q]
    {
      r := cfg.wind(q);
      windCalls := windCalls + [q];
    }

    /** The overridden `readFromDefaultMssql`. */
    method ReadFromDefaultMssql(q: Request) returns (r: Reply<R>)
      modifies this`mssqlCalls
      ensures r == cfg.mssql(q) && mssqlCalls == old(mssqlCalls) + [q]
    {
      r := cfg.mssql(q);
      mssqlCalls := mssqlCalls + [q];
    }

    /** `saveToLocalCsvFile`: skips null or empty data, otherwise writes the
        rows to the key's file; a failing `WriteToCsvFile` is caught. */
    method SaveToLocalCsvFile(data: Option<seq<R>>, code: string, date: DateTime, tag: Option<string>, writeFault: bool)
      modifies store
      ensures store.files == AfterSave(cfg, old(store.files), data, code, date, tag, writeFault)
    {
      var t := tag.GetOr(cfg.typeName);
      if data.None? || |data.value| == 0 {
        return;
      }
      var rows := EncodeRows(data.value, cfg.toRow);
      var path := CacheDataFilePath(cfg.typeName, code, date, Some(t));
      if !writeFault {
        store.WriteToCsvFile(path, rows);
      }
    }

    /** The three guarded blocks of `fetch0`: `cached` is what the cache read
        would leave behind; each source is called only when enabled and while
        `result` is null, and an exception leaves `result` as it was. */
    method TrySources(q: Request, cached: Reply<R>, f: Flags) returns (result: Option<seq<R>>, csvHasData: bool)
      modifies this`windCalls, this`mssqlCalls
      ensures var rs := Replies(cached, cfg.wind(q), cfg.mssql(q));
              var w := Staged(f, rs);
              && result == (if w.hit.Some? then Some(w.hit.value.1) else None)
              && csvHasData == CsvHasData(f, rs)
              && windCalls == old(windCalls) + Logged(w.consulted, Wind, q)
              && mssqlCalls == old(mssqlCalls) + Logged(w.consulted, Mssql, q)
    {
      result := None;
      csvHasData := false;
      if f.tryCsv {
        match cached {
          case Rows(list) => result := Some(list);
          case Null => result := None;
          case Fault =>
        }
        if result.Some? {
          csvHasData := true;
        }
      }
      if result.None? && f.tryWind {
        var r := ReadFromWind(q);
        match r {
          case Rows(list) => result := Some(list);
          case Null => result := None;
          case Fault =>
        }
      }
      if result.None? && f.tryMssql0 {
        var r := ReadFromDefaultMssql(q);
        match r {
          case Rows(list) => result := Some(list);
          case Null => result := None;
          case Fault =>
        }
      }
    }

    /** `fetch0`: try the enabled sources in order while `result` is null,
        swallow their exceptions, hand a result that did not come from the
        cache to `saveToLocalCsvFile` under the same key, then take
        `result.Count`. */
    method Fetch0(code: string, date: DateTime, tag: Option<string>, f: Flags, writeFault: bool) returns (out: Fetched<R>)
      modifies this, store
      ensures var e := Fetch(cfg, old(store.files), code, date, tag, f, writeFault);
              && out == e.out && store.files == e.files
              && windCalls == old(windCalls) + e.windRequests
              && mssqlCalls == old(mssqlCalls) + e.mssqlRequests
    {
      var t := tag.GetOr(cfg.typeName);
      var q := Request(code, date);
      var cached := ReadFromLocalCsv(cfg, store.files, code, date, Some(t));
      RunStages(f, Replies(cached, cfg.wind(q), cfg.mssql(q)));
      var result, csvHasData := TrySources(q, cached, f);
      if !csvHasData && result.Some? && f.saveToCsv {
        SaveToLocalCsvFile(result, code, date, Some(t), writeFault);
      }
      if result.None? {
        out := Threw(NullReference);
      } else {
        out := Returned(result.value);
      }
    }

    method FetchFromLocalCsv(code: string, date: DateTime, tag: Option<string>) returns (out: Fetched<R>)
      modifies this, store
      ensures out == Fetch(cfg, old(store.files), code, date, tag, FromLocalCsv, false).out
      ensures store.files == old(store.files)
      ensures windCalls == old(windCalls) && mssqlCalls == old(mssqlCalls)
    {
      FetchFromLocalCsvReadsOnly(cfg, store.files, code, date, tag, false);
      out := Fetch0(code, date, tag, FromLocalCsv, false);
    }

    method FetchFromWind(code: string, date: DateTime, tag: Option<string>) returns (out: Fetched<R>)
      modifies this, store
      ensures out == Fetch(cfg, map[], code, date, tag, FromWind, false).out
      ensures store.files == old(store.files)
      ensures mssqlCalls == old(mssqlCalls)
      ensures windCalls == old(windCalls) + [Request(code, date)]
    {
      var t := tag.GetOr(cfg.typeName);
      var q := Request(code, date);
      WindOnly(Replies(ReadFromLocalCsv(cfg, store.files, code, date, Some(t)), cfg.wind(q), cfg.mssql(q)),
               ReadFromLocalCsv(cfg, map[], code, date, Some(t)));
      out := Fetch0(code, date, tag, FromWind, false);
    }

    method FetchFromMssql(code: string, date: DateTime, tag: Option<string>) returns (out: Fetched<R>)
      modifies this, store
      ensures out == Fetch(cfg, map[], code, date, tag, FromMssql, false).out
      ensures store.files == old(store.files)
      ensures windCalls == old(windCalls)
      ensures mssqlCalls == old(mssqlCalls) + [Request(code, date)]
    {
      var t := tag.GetOr(cfg.typeName);
      var q := Request(code, date);
      MssqlOnly(Replies(ReadFromLocalCsv(cfg, store.files, code, date, Some(t)), cfg.wind(q), cfg.mssql(q)),
                ReadFromLocalCsv(cfg, map[], code, date, Some(t)));
      out := Fetch0(code, date, tag, FromMssql, false);
    }

    method FetchFromLocalCsvOrWindAndSave(code: string, date: DateTime, tag: Option<string>, writeFault: bool) returns (out: Fetched<R>)
      modifies this, store
      ensures var e := Fetch(cfg, old(store.files), code, date, tag, FromLocalCsvOrWindAndSave, writeFault);
              out == e.out && store.files == e.files && windCalls == old(windCalls) + e.windRequests
      ensures mssqlCalls == old(mssqlCalls)
    {
      var t := tag.GetOr(cfg.typeName);
      var q := Request(code, date);
      LocalCsvOrWindAndSaveWrites(Replies(ReadFromLocalCsv(cfg, store.files, code, date, Some(t)), cfg.wind(q), cfg.mssql(q)));
      out := Fetch0(code, date, tag, FromLocalCsvOrWindAndSave, writeFault);
    }

    method FetchFromLocalCsvOrMssql(code: string, date: DateTime, tag: Option<string>) returns (out: Fetched<R>)
      modifies this, store
      ensures var e := Fetch(cfg, old(store.files), code, date, tag, FromLocalCsvOrMssql, false);
              out == e.out && mssqlCalls == old(mssqlCalls) + e.mssqlRequests
      ensures store.files == old(store.files)
      ensures windCalls == old(windCalls)
    {
      var t := tag.GetOr(cfg.typeName);
      var q := Request(code, date);
      LocalCsvOrMssqlOnly(Replies(ReadFromLocalCsv(cfg, store.files, code, date, Some(t)), cfg.wind(q), cfg.mssql(q)));
      out := Fetch0(code, date, tag, FromLocalCsvOrMssql, false);
    }

    method FetchFromLocalCsvOrMssqlAndSave(code: string, date: DateTime, tag: Option<string>, writeFault: bool) returns (out: Fetched<R>)
      modifies this, store
      ensures var e := Fetch(cfg, old(store.files), code, date, tag, FromLocalCsvOrMssqlAndSave, writeFault);
              out == e.out && store.files == e.files && mssqlCalls == old(mssqlCalls) + e.mssqlRequests
      ensures windCalls == old(windCalls)
    {
      var t := tag.GetOr(cfg.typeName);
      var q := Request(code, date);
      LocalCsvOrMssqlAndSaveWrites(Replies(ReadFromLocalCsv(cfg, store.files, code, date, Some(t)), cfg.wind(q), cfg.mssql(q)));
      out := Fetch0(code, date, tag, FromLocalCsvOrMssqlAndSave, writeFault);
    }

    method FetchFromWindAndSave(code: string, date: DateTime, tag: Option<string>, writeFault: bool) returns (out: Fetched<R>)
      modifies this, store
      ensures var e := Fetch(cfg, old(store.files), code, date, tag, FromWindAndSave, writeFault);
              out == e.out && store.files == e.files
      ensures mssqlCalls == old(mssqlCalls)
      ensures windCalls == old(windCalls) + [Request(code, date)]
      ensures cfg.wind(Request(code, date)).Rows? ==>
              out == Returned(cfg.wind(Request(code, date)).rows)
              && store.files == AfterSave(cfg, old(store.files), Some(cfg.wind(Request(code, date)).rows), code, date,
                                          Some(tag.GetOr(cfg.typeName)), writeFault)
    {
      var t := tag.GetOr(cfg.typeName);
      var q := Request(code, date);
      WindAndSaveWrites(Replies(ReadFromLocalCsv(cfg, store.files, code, date, Some(t)), cfg.wind(q), cfg.mssql(q)));
      out := Fetch0(code, date, tag, FromWindAndSave, writeFault);
    }
  }
}

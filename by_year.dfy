/** `SequentialByYearRepository<T>`: records cached one file per
    (tag, code, calendar year), fetched from the local CSV cache, Wind or the
    default MSSQL source for the period Jan 1 .. Dec 31 of the year. */
module ByYear {
  import opened Results
  import opened Dates
  import opened CsvCache
  import opened SourceChain

  /** The configuration key of the path template for per-year files. */
  const PathKey: string := "CacheData.Path.SequentialByYear"

  /** The arguments `readFromWind` and `readFromDefaultMssql` receive. */
  datatype Request = Request(code: string, dateStart: DateTime, dateEnd: DateTime, tag: string)

  /** `_buildCacheDataFilePath`: the tag (the type name when absent), the code
      and both dates rendered `yyyyMMdd`, bound to their placeholders. */
  function CacheDataFilePath(typeName: string, code: string, date1: DateTime, date2: DateTime, tag: Option<string>): (p: CachePath)
    ensures p.Named? && p.pathKey == PathKey
    ensures p.values.Keys == {"{tag}", "{code}", "{date1}", "{date2}"}
    ensures p.values["{tag}"] == tag.GetOr(typeName) && p.values["{code}"] == code
    ensures ParseYyyymmdd(p.values["{date1}"]) == Some((date1.year, date1.month, date1.day))
    ensures ParseYyyymmdd(p.values["{date2}"]) == Some((date2.year, date2.month, date2.day))
  {
    ParseInvertsYyyymmdd(date1);
    ParseInvertsYyyymmdd(date2);
    Named(PathKey, map["{tag}" := tag.GetOr(typeName), "{code}" := code,
                       "{date1}" := Yyyymmdd(date1), "{date2}" := Yyyymmdd(date2)])
  }

  /** Two per-year cache paths coincide exactly when their effective tags and
      codes are equal and their dates fall on the same days. */
  lemma CacheDataFilePathIdentifiesKey(typeName: string, code1: string, start1: DateTime, end1: DateTime, tag1: Option<string>,
                                       code2: string, start2: DateTime, end2: DateTime, tag2: Option<string>)
    ensures CacheDataFilePath(typeName, code1, start1, end1, tag1) == CacheDataFilePath(typeName, code2, start2, end2, tag2)
        <==> tag1.GetOr(typeName) == tag2.GetOr(typeName) && code1 == code2 && SameDay(start1, start2) && SameDay(end1, end2)
  {
    var p1 := CacheDataFilePath(typeName, code1, start1, end1, tag1);
    var p2 := CacheDataFilePath(typeName, code2, start2, end2, tag2);
    YyyymmddIdentifiesDay(start1, start2);
    YyyymmddIdentifiesDay(end1, end2);
    if p1 == p2 {
      assert p1.values["{date1}"] == p2.values["{date1}"];
      assert p1.values["{date2}"] == p2.values["{date2}"];
      assert p1.values["{tag}"] == p2.values["{tag}"];
      assert p1.values["{code}"] == p2.values["{code}"];
    }
  }

  /** `new DateTime(year, 1, 1)` and `new DateTime(year, 12, 31)`, or nothing
      when the year is out of DateTime's range and the constructor throws. */
  function YearPeriod(year: int): (p: Option<(DateTime, DateTime)>)
    ensures p.Some? <==> 1 <= year <= 9999
  {
    if 1 <= year <= 9999 then Some((Stamp(year, 1, 1, 0), Stamp(year, 12, 31, 0))) else None
  }

  /** The period of a year starts at midnight and covers exactly the days of
      that year. */
  lemma YearPeriodCoversYear(year: int, d: DateTime)
    requires YearPeriod(year).Some?
    ensures YearPeriod(year).value.0.ticks == 0 && YearPeriod(year).value.1.ticks == 0
    ensures DayOnOrBefore(YearPeriod(year).value.0, d) && DayOnOrBefore(d, YearPeriod(year).value.1) <==> d.year == year
  {
  }

  /** The cache path of a year: distinct (tag, code, year) keys never share a file. */
  lemma YearPathsDistinct(typeName: string, code1: string, year1: int, tag1: Option<string>,
                          code2: string, year2: int, tag2: Option<string>)
    requires YearPeriod(year1).Some? && YearPeriod(year2).Some?
    ensures var (s1, e1) := YearPeriod(year1).value;
            var (s2, e2) := YearPeriod(year2).value;
            CacheDataFilePath(typeName, code1, s1, e1, tag1) == CacheDataFilePath(typeName, code2, s2, e2, tag2)
            <==> tag1.GetOr(typeName) == tag2.GetOr(typeName) && code1 == code2 && year1 == year2
  {
    var (s1, e1) := YearPeriod(year1).value;
    var (s2, e2) := YearPeriod(year2).value;
    CacheDataFilePathIdentifiesKey(typeName, code1, s1, e1, tag1, code2, s2, e2, tag2);
  }

  /** `readFromLocalCsv(code, date1, date2, tag)`: `null` exactly when there
      is no cache file for the key; otherwise one entity per row, in row order. */
  function ReadFromLocalCsv<R, Row>(cfg: Config<Request, R, Row>, files: Files<Row>, code: string,
                                    date1: DateTime, date2: DateTime, tag: Option<string>): (r: Reply<R>)
    ensures r.Null? <==> CacheDataFilePath(cfg.typeName, code, date1, date2, tag) !in files
    ensures r.Rows? ==>
              var file := files[CacheDataFilePath(cfg.typeName, code, date1, date2, tag)];
              && file.Table?
              && |r.rows| == |file.rows|
              && forall i :: 0 <= i < |r.rows| ==> cfg.toEntity(file.rows[i]) == Some(r.rows[i])
  {
    ReadLocalCsv(files, CacheDataFilePath(cfg.typeName, code, date1, date2, tag), cfg.toEntity)
  }

  /** The cache after `saveToLocalCsv(data, code, date1, date2, tag, appendMode)`:
      the key's file holds the data's rows (after the rows already there, in
      append mode), even when the data is empty; no other file changes. */
  function AfterSave<R, Row>(cfg: Config<Request, R, Row>, files: Files<Row>, data: seq<R>, code: string,
                             date1: DateTime, date2: DateTime, tag: Option<string>, appendMode: bool): (files': Files<Row>)
    ensures var path := CacheDataFilePath(cfg.typeName, code, date1, date2, tag);
            && files'.Keys == files.Keys + {path}
            && (forall p :: p in files && p != path ==> files'[p] == files[p])
            && (!appendMode ==> files'[path] == Table(EncodeRows(data, cfg.toRow)))
  {
    SaveLocalCsv(files, CacheDataFilePath(cfg.typeName, code, date1, date2, tag), EncodeRows(data, cfg.toRow), appendMode)
  }

  /** What `fetch0(code, year, tag, ...)` would leave behind: it throws before
      any source is tried when the year is out of range, calls each remote
      source at most once, and changes the cache only when saving is on. */
  function Fetch<R, Row>(cfg: Config<Request, R, Row>, files: Files<Row>, code: string, year: int,
                         tag: Option<string>, f: Flags): (e: Effect<Request, R, Row>)
    ensures e.out == Threw(ArgumentOutOfRange) <==> !(1 <= year <= 9999)
    ensures !(1 <= year <= 9999) ==> e.files == files && e.windRequests == [] && e.mssqlRequests == []
    ensures |e.windRequests| <= 1 && |e.mssqlRequests| <= 1
    ensures e.files != files ==> f.saveToCsv && e.out.Returned?
  {
    match YearPeriod(year)
    case None => Effect(Threw(ArgumentOutOfRange), files, [], [])
    case Some((date1, date2)) =>
      var t := tag.GetOr(cfg.typeName);
      var q := Request(code, date1, date2, t);
      var rs := Replies(ReadFromLocalCsv(cfg, files, code, date1, date2, Some(t)), cfg.wind(q), cfg.mssql(q));
      var w := Run(f, rs);
      Effect(Outcome(w),
             if WritesBack(f, rs) then AfterSave(cfg, files, w.hit.value.1, code, date1, date2, Some(t), false) else files,
             Logged(w.consulted, Wind, q), Logged(w.consulted, Mssql, q))
  }

  /** After a fetch with saving on returns a list, a cache-only fetch of the
      same key returns that list again, without a remote call or a write;
      this holds for an empty list too. */
  lemma SavedResultServedFromCache<R, Row>(cfg: Config<Request, R, Row>, files: Files<Row>, code: string, year: int,
                                           tag: Option<string>, f: Flags)
    requires f.saveToCsv
    requires Fetch(cfg, files, code, year, tag, f).out.Returned?
    requires RoundTrips(Fetch(cfg, files, code, year, tag, f).out.list, cfg.toEntity, cfg.toRow)
    ensures var e := Fetch(cfg, files, code, year, tag, f);
            Fetch(cfg, e.files, code, year, tag, FromLocalCsv) == Effect(e.out, e.files, [], [])
  {
    var e := Fetch(cfg, files, code, year, tag, f);
    var (date1, date2) := YearPeriod(year).value;
    var t := tag.GetOr(cfg.typeName);
    var q := Request(code, date1, date2, t);
    var rs := Replies(ReadFromLocalCsv(cfg, files, code, date1, date2, Some(t)), cfg.wind(q), cfg.mssql(q));
    var w := Run(f, rs);
    WriteBackIff(f, rs);
    if WritesBack(f, rs) {
      SaveThenRead(files, CacheDataFilePath(cfg.typeName, code, date1, date2, Some(t)), w.hit.value.1, cfg.toEntity, cfg.toRow);
    } else {
      HitIff(f, rs, Csv, w.hit.value.1);
    }
    var rs2 := Replies(ReadFromLocalCsv(cfg, e.files, code, date1, date2, Some(t)), cfg.wind(q), cfg.mssql(q));
    assert rs2.csv == Rows(e.out.list);
    LocalCsvOnly(rs2);
  }

  /** `fetchFromLocalCsv` never calls a remote source and never saves. */
  lemma FetchFromLocalCsvReadsOnly<R, Row>(cfg: Config<Request, R, Row>, files: Files<Row>, code: string, year: int, tag: Option<string>)
    ensures var e := Fetch(cfg, files, code, year, tag, FromLocalCsv);
            e.files == files && e.windRequests == [] && e.mssqlRequests == []
  {
    if YearPeriod(year).Some? {
      var (date1, date2) := YearPeriod(year).value;
      var t := tag.GetOr(cfg.typeName);
      var q := Request(code, date1, date2, t);
      LocalCsvOnly(Replies(ReadFromLocalCsv(cfg, files, code, date1, date2, Some(t)), cfg.wind(q), cfg.mssql(q)));
    }
  }

  /** A repository instance: its supplied parts, the cache it shares, and the
      requests its two remote reads have received so far. */
  class SequentialByYearRepository<R, Row> {
    const cfg: Config<Request, R, Row>
    const store: FileStore<Row>
    var windCalls: seq<Request>
    var mssqlCalls: seq<Request>

    constructor (cfg: Config<Request, R, Row>, store: FileStore<Row>)
      ensures this.cfg == cfg && this.store == store
      ensures windCalls == [] && mssqlCalls == []
    {
      this.cfg := cfg;
      this.store := store;
      windCalls := [];
      mssqlCalls := [];
    }

    /** The overridden `readFromWind`. */
    method ReadFromWind(q: Request) returns (r: Reply<R>)
      modifies this`windCalls
      ensures r == cfg.wind(q) && windCalls == old(windCalls) + [q]
    {
      r := cfg.wind(q);
      windCalls := windCalls + [q];
    }

    /** The overridden `readFromDefaultMssql`. */
    method ReadFromDefaultMssql(q: Request) returns (r: Reply<R>)
      modifies this`mssqlCalls
      ensures r == cfg.mssql(q) && mssqlCalls == old(mssqlCalls) + [q]
    {
      r := cfg.mssql(q);
      mssqlCalls := mssqlCalls + [q];
    }

    method SaveToLocalCsv(data: seq<R>, code: string, date1: DateTime, date2: DateTime, tag: Option<string>, appendMode: bool)
      modifies store
      ensures store.files == AfterSave(cfg, old(store.files), data, code, date1, date2, tag, appendMode)
    {
      var path := CacheDataFilePath(cfg.typeName, code, date1, date2, tag);
      store.SaveToLocalCsv(path, EncodeRows(data, cfg.toRow), appendMode);
    }

    /** The three guarded blocks of `fetch0`: `cached` is what the cache read
        would leave behind; each source is called only when enabled and while
        `result` is null, and an exception leaves `result` as it was. */
    method TrySources(q: Request, cached: Reply<R>, f: Flags) returns (result: Option<seq<R>>, csvHasData: bool)
      modifies this`windCalls, this`mssqlCalls
      ensures var rs := Replies(cached, cfg.wind(q), cfg.mssql(q));
              var w := Staged(f, rs);
              && result == (if w.hit.Some? then Some(w.hit.value.1) else None)
              && csvHasData == CsvHasData(f, rs)
              && windCalls == old(windCalls) + Logged(w.consulted, Wind, q)
              && mssqlCalls == old(mssqlCalls) + Logged(w.consulted, Mssql, q)
    {
      result := None;
      csvHasData := false;
      if f.tryCsv {
        match cached {
          case Rows(list) => result := Some(list);
          case Null => result := None;
          case Fault =>
        }
        if result.Some? {
          csvHasData := true;
        }
      }
      if result.None? && f.tryWind {
        var r := ReadFromWind(q);
        match r {
          case Rows(list) => result := Some(list);
          case Null => result := None;
          case Fault =>
        }
      }
      if result.None? && f.tryMssql0 {
        var r := ReadFromDefaultMssql(q);
        match r {
          case Rows(list) => result := Some(list);
          case Null => result := None;
          case Fault =>
        }
      }
    }

    /** `fetch0`: try the enabled sources in order while `result` is null,
        swallow their exceptions, write a result that did not come from the
        cache back under the same key, then take `result.Count`. */
    method Fetch0(code: string, year: int, tag: Option<string>, f: Flags) returns (out: Fetched<R>)
      modifies this, store
      ensures var e := Fetch(cfg, old(store.files), code, year, tag, f);
              && out == e.out && store.files == e.files
              && windCalls == old(windCalls) + e.windRequests
              && mssqlCalls == old(mssqlCalls) + e.mssqlRequests
    {
      var t := tag.GetOr(cfg.typeName);
      var result: Option<seq<R>> := None;
      var csvHasData := false;
      if !(1 <= year <= 9999) {
        out := Threw(ArgumentOutOfRange);
        return;
      }
      var date1: DateTime := Stamp(year, 1, 1, 0);
      var date2: DateTime := Stamp(year, 12, 31, 0);
      var q := Request(code, date1, date2, t);
      var cached := ReadFromLocalCsv(cfg, store.files, code, date1, date2, Some(t));
      RunStages(f, Replies(cached, cfg.wind(q), cfg.mssql(q)));
      result, csvHasData := TrySources(q, cached, f);
      if !csvHasData && result.Some? && f.saveToCsv {
        SaveToLocalCsv(result.value, code, date1, date2, Some(t), false);
      }
      if result.None? {
        out := Threw(NullReference);
      } else {
        out := Returned(result.value);
      }
    }

    method FetchFromLocalCsv(code: string, year: int, tag: Option<string>) returns (out: Fetched<R>)
      modifies this, store
      ensures out == Fetch(cfg, old(store.files), code, year, tag, FromLocalCsv).out
      ensures store.files == old(store.files)
      ensures windCalls == old(windCalls) && mssqlCalls == old(mssqlCalls)
    {
      FetchFromLocalCsvReadsOnly(cfg, store.files, code, year, tag);
      out := Fetch0(code, year, tag, FromLocalCsv);
    }

    method FetchFromWind(code: string, year: int, tag: Option<string>) returns (out: Fetched<R>)
      modifies this, store
      ensures out == Fetch(cfg, map[], code, year, tag, FromWind).out
      ensures store.files == old(store.files)
      ensures mssqlCalls == old(mssqlCalls)
      ensures windCalls == old(windCalls) + Fetch(cfg, old(store.files), code, year, tag, FromWind).windRequests
    {
      ghost var files := store.files;
      if YearPeriod(year).Some? {
        var (date1, date2) := YearPeriod(year).value;
        var t := tag.GetOr(cfg.typeName);
        var q := Request(code, date1, date2, t);
        var rs := Replies(ReadFromLocalCsv(cfg, files, code, date1, date2, Some(t)), cfg.wind(q), cfg.mssql(q));
        WindOnly(rs, ReadFromLocalCsv(cfg, map[], code, date1, date2, Some(t)));
      }
      out := Fetch0(code, year, tag, FromWind);
    }

    method FetchFromMssql(code: string, year: int, tag: Option<string>) returns (out: Fetched<R>)
      modifies this, store
      ensures out == Fetch(cfg, map[], code, year, tag, FromMssql).out
      ensures store.files == old(store.files)
      ensures windCalls == old(windCalls)
      ensures mssqlCalls == old(mssqlCalls) + Fetch(cfg, old(store.files), code, year, tag, FromMssql).mssqlRequests
    {
      ghost var files := store.files;
      if YearPeriod(year).Some? {
        var (date1, date2) := YearPeriod(year).value;
        var t := tag.GetOr(cfg.typeName);
        var q := Request(code, date1, date2, t);
        var rs := Replies(ReadFromLocalCsv(cfg, files, code, date1, date2, Some(t)), cfg.wind(q), cfg.mssql(q));
        MssqlOnly(rs, ReadFromLocalCsv(cfg, map[], code, date1, date2, Some(t)));
      }
      out := Fetch0(code, year, tag, FromMssql);
    }

    method FetchFromLocalCsvOrWindAndSave(code: string, year: int, tag: Option<string>) returns (out: Fetched<R>)
      modifies this, store
      ensures var e := Fetch(cfg, old(store.files), code, year, tag, FromLocalCsvOrWindAndSave);
              out == e.out && store.files == e.files && windCalls == old(windCalls) + e.windRequests
      ensures mssqlCalls == old(mssqlCalls)
    {
      ghost var files := store.files;
      if YearPeriod(year).Some? {
        var (date1, date2) := YearPeriod(year).value;
        var t := tag.GetOr(cfg.typeName);
        var q := Request(code, date1, date2, t);
        LocalCsvOrWindAndSaveWrites(Replies(ReadFromLocalCsv(cfg, files, code, date1, date2, Some(t)), cfg.wind(q), cfg.mssql(q)));
      }
      out := Fetch0(code, year, tag, FromLocalCsvOrWindAndSave);
    }

    method FetchFromLocalCsvOrMssql(code: string, year: int, tag: Option<string>) returns (out: Fetched<R>)
      modifies this, store
      ensures var e := Fetch(cfg, old(store.files), code, year, tag, FromLocalCsvOrMssql);
              out == e.out && mssqlCalls == old(mssqlCalls) + e.mssqlRequests
      ensures store.files == old(store.files)
      ensures windCalls == old(windCalls)
    {
      ghost var files := store.files;
      if YearPeriod(year).Some? {
        var (date1, date2) := YearPeriod(year).value;
        var t := tag.GetOr(cfg.typeName);
        var q := Request(code, date1, date2, t);
        LocalCsvOrMssqlOnly(Replies(ReadFromLocalCsv(cfg, files, code, date1, date2, Some(t)), cfg.wind(q), cfg.mssql(q)));
      }
      out := Fetch0(code, year, tag, FromLocalCsvOrMssql);
    }

    method FetchFromLocalCsvOrMssqlAndSave(code: string, year: int, tag: Option<string>) returns (out: Fetched<R>)
      modifies this, store
      ensures var e := Fetch(cfg, old(store.files), code, year, tag, FromLocalCsvOrMssqlAndSave);
              out == e.out && store.files == e.files && mssqlCalls == old(mssqlCalls) + e.mssqlRequests
      ensures windCalls == old(windCalls)
    {
      ghost var files := store.files;
      if YearPeriod(year).Some? {
        var (date1, date2) := YearPeriod(year).value;
        var t := tag.GetOr(cfg.typeName);
        var q := Request(code, date1, date2, t);
        LocalCsvOrMssqlAndSaveWrites(Replies(ReadFromLocalCsv(cfg, files, code, date1, date2, Some(t)), cfg.wind(q), cfg.mssql(q)));
      }
      out := Fetch0(code, year, tag, FromLocalCsvOrMssqlAndSave);
    }

    method FetchFromWindAndSave(code: string, year: int, tag: Option<string>) returns (out: Fetched<R>)
      modifies this, store
      ensures var e := Fetch(cfg, old(store.files), code, year, tag, FromWindAndSave);
              out == e.out && store.files == e.files && windCalls == old(windCalls) + e.windRequests
      ensures mssqlCalls == old(mssqlCalls)
      ensures YearPeriod(year).Some? ==>
              var (date1, date2) := YearPeriod(year).value;
              var t := tag.GetOr(cfg.typeName);
              var reply := cfg.wind(Request(code, date1, date2, t));
              reply.Rows? ==> out == Returned(reply.rows)
                              && store.files == AfterSave(cfg, old(store.files), reply.rows, code, date1, date2, Some(t), false)
    {
      ghost var files := store.files;
      if YearPeriod(year).Some? {
        var (date1, date2) := YearPeriod(year).value;
        var t := tag.GetOr(cfg.typeName);
        var q := Request(code, date1, date2, t);
        WindAndSaveWrites(Replies(ReadFromLocalCsv(cfg, files, code, date1, date2, Some(t)), cfg.wind(q), cfg.mssql(q)));
      }
      out := Fetch0(code, year, tag, FromWindAndSave);
    }
  }
}

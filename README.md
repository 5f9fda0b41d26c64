# Sequential repositories: fetch with ordered fallback and CSV write-back

This project models the data-access core of the back-testing platform's
`SequentialByYearRepository<T>` and `SequentialByDayRepository<T>`. Both
classes fetch a list of records for a key. The per-year key is
(tag, code, 1 January .. 31 December of a year). The per-day key is
(tag, code, date). Each fetch goes through the private routine `fetch0`:

- it tries the local CSV cache, then Wind, then the default MSSQL source;
- each source is tried only when its flag is on and no earlier source has
  produced a list;
- an exception from a source is caught, so the chain falls through to the
  next source;
- a list that did not come from the cache is written back to the cache file
  of the same key when saving is on;
- `null` (no cache file, or every source failed) is distinct from an empty
  list. A fetch that ends with `null` throws at `result.Count`.

The model is laid out as follows:

- `Results`: the outcome types:
  - a source's reply is `Null`, `Rows(list)` or `Fault` (it threw);
  - a fetch either `Returned` a list or `Threw` an exception.
- `Dates`: the part of `System.DateTime` the repositories use:
  - valid dates in years 1..9999;
  - the `yyyyMMdd` rendering, with a proof that it identifies the calendar day.
- `CsvCache`: the cache directory, modelled as a map from cache path to file:
  - reading a file into entities, and writing entities as rows;
  - a `FileStore` object that the repositories update in place.
- `SourceChain`: the fallback order, stated once:
  - `Walk` is the reference definition: the first enabled source, in
    precedence order, that produced a list;
  - the three guarded blocks of `fetch0` (`Staged`) are proved equal to that walk;
  - the write-back guard, and the flag tuple of each public `fetchFrom...` wrapper.
- `ByYear` and `ByDay`: each holds the cache path of a key, the read, the save
  and a pure `Fetch` describing everything one `fetch0` call does. Each also
  holds a repository class whose methods carry out the chain step by step:
  - it logs the requests each remote source receives;
  - it updates the shared store;
  - its `Fetch0` is proved to end exactly as `Fetch` says.

Wind and MSSQL are abstract in the source. Here they are functions supplied in
a `Config` (request to reply), together with the type name (the default tag)
and the row/entity conversions. Whether a write of the per-day cache file
fails is a parameter (`writeFault`).

## Model

| member | source | states |
|---|---|---|
| Dates.Yyyymmdd | BackTestingPlatform/BackTestingPlatform/DataAccess/Common/SequentialByYearRepository.cs:248-249 | the `yyyyMMdd` rendering is eight decimal digits |
| Dates.ParseInvertsYyyymmdd | BackTestingPlatform/BackTestingPlatform/DataAccess/Common/SequentialByYearRepository.cs:248-249 | the rendering gives back year, month and day: only the time of day is lost |
| Dates.YyyymmddIdentifiesDay | BackTestingPlatform/BackTestingPlatform/DataAccess/Common/SequentialByDayRepository.cs:60 | two dates render alike exactly when they fall on the same calendar day |
| Dates.PaddedValue | BackTestingPlatform/BackTestingPlatform/DataAccess/Common/SequentialByYearRepository.cs:248-249 | a zero-padded field denotes the number that was rendered |
| CsvCache.DecodeRows | BackTestingPlatform/BackTestingPlatform/DataAccess/Common/SequentialByDayRepository.cs:63 | row-by-row conversion: succeeds exactly when every row converts, and then gives one entity per row, in order |
| CsvCache.EncodeRows | BackTestingPlatform/BackTestingPlatform/DataAccess/Common/SequentialByDayRepository.cs:221 | one row per entity, in order |
| CsvCache.DecodeEncode | BackTestingPlatform/BackTestingPlatform/DataAccess/Common/SequentialByDayRepository.cs:221-226 | converting entities to rows and back gives the entities back |
| CsvCache.ReadLocalCsv | BackTestingPlatform/BackTestingPlatform/DataAccess/Common/SequentialByDayRepository.cs:61-63 | `null` exactly when no file exists; a list exactly when the file reads and every row converts; otherwise an exception |
| CsvCache.SaveLocalCsv | BackTestingPlatform/BackTestingPlatform/DataAccess/Common/SequentialByYearRepository.cs:234-238 | overwrite or append at one path; every other path keeps its file |
| CsvCache.SaveThenRead | BackTestingPlatform/BackTestingPlatform/DataAccess/Common/SequentialByYearRepository.cs:179-180 | after an overwriting save, reading the path returns the data, an empty list included (never `null`) |
| CsvCache.FileStore.WriteToCsvFile | BackTestingPlatform/BackTestingPlatform/DataAccess/Common/SequentialByDayRepository.cs:226 | the store afterwards holds the table at the path |
| CsvCache.FileStore.SaveToLocalCsv | BackTestingPlatform/BackTestingPlatform/DataAccess/Common/SequentialByYearRepository.cs:237 | the store afterwards is the save of the old store |
| SourceChain.Order | BackTestingPlatform/BackTestingPlatform/DataAccess/Common/SequentialByYearRepository.cs:173-214 | the enabled sources, in strictly increasing precedence csv, Wind, MSSQL |
| SourceChain.WalkStopsAtFirstList | BackTestingPlatform/BackTestingPlatform/DataAccess/Common/SequentialByYearRepository.cs:188-201 | the walk calls a prefix of the sources; all calls but the last gave no list; it has a hit exactly when some source gave a list |
| SourceChain.RunStages | BackTestingPlatform/BackTestingPlatform/DataAccess/Common/SequentialByYearRepository.cs:173-214 | the three guarded blocks compute the walk over the enabled sources |
| SourceChain.Staged | BackTestingPlatform/BackTestingPlatform/DataAccess/Common/SequentialByYearRepository.cs:173-214 | the three guarded blocks only call enabled sources; a hit is the list of an enabled source, and that source is the last one called |
| SourceChain.ConsultedIff | BackTestingPlatform/BackTestingPlatform/DataAccess/Common/SequentialByYearRepository.cs:188-201 | a source is called exactly when it is enabled and no enabled earlier source produced a list |
| SourceChain.HitIff | BackTestingPlatform/BackTestingPlatform/DataAccess/Common/SequentialByYearRepository.cs:173-214 | the result is the list of the first enabled source that produced one, and only that |
| SourceChain.NothingFoundThrows | BackTestingPlatform/BackTestingPlatform/DataAccess/Common/SequentialByYearRepository.cs:221 | the fetch throws at `result.Count` exactly when no enabled source produced a list; a returned list always comes from an enabled source |
| SourceChain.Outcome | BackTestingPlatform/BackTestingPlatform/DataAccess/Common/SequentialByYearRepository.cs:221-222 | the fetch throws a null reference exception exactly when no list was found, and otherwise returns the list found |
| SourceChain.CsvListEndsChain | BackTestingPlatform/BackTestingPlatform/DataAccess/Common/SequentialByYearRepository.cs:173-201 | a list from the cache, even an empty one, ends the chain: no remote call and no write-back |
| SourceChain.FaultActsAsNull | BackTestingPlatform/BackTestingPlatform/DataAccess/Common/SequentialByYearRepository.cs:177-185 | a source that throws leaves the chain as a `null` reply would, so later sources are still tried |
| SourceChain.WriteBackIff | BackTestingPlatform/BackTestingPlatform/DataAccess/Common/SequentialByYearRepository.cs:186-220 | `csvHasData` holds exactly when the hit came from the cache; the write-back happens exactly when saving is on and the hit came from a remote source |
| SourceChain.CsvHasData | BackTestingPlatform/BackTestingPlatform/DataAccess/Common/SequentialByYearRepository.cs:186 | when `csvHasData` is set, the cache's list ends the chain and only the cache was called |
| SourceChain.WritesBack | BackTestingPlatform/BackTestingPlatform/DataAccess/Common/SequentialByYearRepository.cs:215 | the write-back happens only when saving is on and the fetch returns a list |
| SourceChain.LocalCsvOnly | BackTestingPlatform/BackTestingPlatform/DataAccess/Common/SequentialByYearRepository.cs:71-74 | cache only: returns the cached list or throws; never saves |
| SourceChain.WindOnly | BackTestingPlatform/BackTestingPlatform/DataAccess/Common/SequentialByYearRepository.cs:84-87 | calls Wind only, whatever the cache holds; never saves |
| SourceChain.MssqlOnly | BackTestingPlatform/BackTestingPlatform/DataAccess/Common/SequentialByYearRepository.cs:97-100 | calls MSSQL only, whatever the cache holds; never saves |
| SourceChain.LocalCsvOrWindAndSaveWrites | BackTestingPlatform/BackTestingPlatform/DataAccess/Common/SequentialByYearRepository.cs:110-113 | never calls MSSQL; writes back exactly when the cache gave no list and Wind did |
| SourceChain.LocalCsvOrMssqlOnly | BackTestingPlatform/BackTestingPlatform/DataAccess/Common/SequentialByYearRepository.cs:122-125 | never calls Wind; calls MSSQL exactly when the cache gave no list; never saves |
| SourceChain.LocalCsvOrMssqlAndSaveWrites | BackTestingPlatform/BackTestingPlatform/DataAccess/Common/SequentialByYearRepository.cs:135-138 | never calls Wind; writes back exactly when the cache gave no list and MSSQL did |
| SourceChain.WindAndSaveWrites | BackTestingPlatform/BackTestingPlatform/DataAccess/Common/SequentialByYearRepository.cs:148-151 | calls Wind only; writes back exactly when Wind produced a list, and returns it |
| ByYear.CacheDataFilePathIdentifiesKey | BackTestingPlatform/BackTestingPlatform/DataAccess/Common/SequentialByYearRepository.cs:241-251 | two per-year paths coincide exactly when the effective tags, the codes and both dates' days agree |
| ByYear.YearPeriod | BackTestingPlatform/BackTestingPlatform/DataAccess/Common/SequentialByYearRepository.cs:170-171 | the period exists exactly for years 1..9999; otherwise the DateTime constructor throws |
| ByYear.CacheDataFilePath | BackTestingPlatform/BackTestingPlatform/DataAccess/Common/SequentialByYearRepository.cs:241-251 | the path binds exactly `{tag}`, `{code}`, `{date1}`, `{date2}`: the effective tag, the code, and two eight-digit strings that parse back to the two days |
| ByYear.YearPeriodCoversYear | BackTestingPlatform/BackTestingPlatform/DataAccess/Common/SequentialByYearRepository.cs:170-171 | the period runs from midnight on 1 January to 31 December and covers exactly that year's days |
| ByYear.YearPathsDistinct | BackTestingPlatform/BackTestingPlatform/DataAccess/Common/SequentialByYearRepository.cs:241-251 | distinct (tag, code, year) keys never share a cache file |
| ByYear.ReadFromLocalCsv | BackTestingPlatform/BackTestingPlatform/DataAccess/Common/SequentialByYearRepository.cs:57-61 | `null` exactly when the key has no cache file; otherwise one entity per row, in order |
| ByYear.AfterSave | BackTestingPlatform/BackTestingPlatform/DataAccess/Common/SequentialByYearRepository.cs:234-238 | the key's file receives the rows, an empty list included; no other file changes |
| ByYear.Fetch | BackTestingPlatform/BackTestingPlatform/DataAccess/Common/SequentialByYearRepository.cs:165-223 | throws ArgumentOutOfRange exactly for a year outside 1..9999, before any source; each remote source is called at most once; the cache changes only when saving is on and a list is returned |
| ByYear.SavedResultServedFromCache | BackTestingPlatform/BackTestingPlatform/DataAccess/Common/SequentialByYearRepository.cs:215-220 | after a saving fetch returns a list, a cache-only fetch returns the same list with no remote call and no write |
| ByYear.FetchFromLocalCsvReadsOnly | BackTestingPlatform/BackTestingPlatform/DataAccess/Common/SequentialByYearRepository.cs:71-74 | a cache-only fetch never calls a remote source and never writes |
| ByYear.SequentialByYearRepository.ReadFromWind | BackTestingPlatform/BackTestingPlatform/DataAccess/Common/SequentialByYearRepository.cs:33 | returns Wind's reply and logs the request |
| ByYear.SequentialByYearRepository.ReadFromDefaultMssql | BackTestingPlatform/BackTestingPlatform/DataAccess/Common/SequentialByYearRepository.cs:45 | returns MSSQL's reply and logs the request |
| ByYear.SequentialByYearRepository.SaveToLocalCsv | BackTestingPlatform/BackTestingPlatform/DataAccess/Common/SequentialByYearRepository.cs:234-238 | the store becomes the save of the data at the key's path |
| ByYear.SequentialByYearRepository.TrySources | BackTestingPlatform/BackTestingPlatform/DataAccess/Common/SequentialByYearRepository.cs:173-214 | the guarded blocks give the result and `csvHasData` of the walk; exactly the consulted remote sources log the request |
| ByYear.SequentialByYearRepository.Fetch0 | BackTestingPlatform/BackTestingPlatform/DataAccess/Common/SequentialByYearRepository.cs:165-223 | the outcome, the store and both request logs afterwards are those of `Fetch` |
| ByYear.SequentialByYearRepository.FetchFromLocalCsv | BackTestingPlatform/BackTestingPlatform/DataAccess/Common/SequentialByYearRepository.cs:71-74 | the cached list or a throw; store and request logs unchanged |
| ByYear.SequentialByYearRepository.FetchFromWind | BackTestingPlatform/BackTestingPlatform/DataAccess/Common/SequentialByYearRepository.cs:84-87 | the outcome does not depend on the cache; store unchanged; MSSQL never called |
| ByYear.SequentialByYearRepository.FetchFromMssql | BackTestingPlatform/BackTestingPlatform/DataAccess/Common/SequentialByYearRepository.cs:97-100 | the outcome does not depend on the cache; store unchanged; Wind never called |
| ByYear.SequentialByYearRepository.FetchFromLocalCsvOrWindAndSave | BackTestingPlatform/BackTestingPlatform/DataAccess/Common/SequentialByYearRepository.cs:110-113 | the `Fetch` outcome for these flags; MSSQL never called |
| ByYear.SequentialByYearRepository.FetchFromLocalCsvOrMssql | BackTestingPlatform/BackTestingPlatform/DataAccess/Common/SequentialByYearRepository.cs:122-125 | the `Fetch` outcome for these flags; store unchanged; Wind never called |
| ByYear.SequentialByYearRepository.FetchFromLocalCsvOrMssqlAndSave | BackTestingPlatform/BackTestingPlatform/DataAccess/Common/SequentialByYearRepository.cs:135-138 | the `Fetch` outcome for these flags; Wind never called |
| ByYear.SequentialByYearRepository.FetchFromWindAndSave | BackTestingPlatform/BackTestingPlatform/DataAccess/Common/SequentialByYearRepository.cs:148-151 | a Wind list is returned and overwrites the key's cache file; MSSQL never called |
| ByDay.CacheDataFilePathIdentifiesKey | BackTestingPlatform/BackTestingPlatform/DataAccess/Common/SequentialByDayRepository.cs:59-60 | two per-day paths coincide exactly when the effective tags and codes agree and the dates fall on the same day |
| ByDay.CacheDataFilePath | BackTestingPlatform/BackTestingPlatform/DataAccess/Common/SequentialByDayRepository.cs:59-60 | three positional values: the effective tag, the code, and an eight-digit string that parses back to the day |
| ByDay.ReadFromLocalCsv | BackTestingPlatform/BackTestingPlatform/DataAccess/Common/SequentialByDayRepository.cs:57-64 | `null` exactly when the key has no cache file; otherwise one entity per row, in order |
| ByDay.SaveWritesOnlyItsKey | BackTestingPlatform/BackTestingPlatform/DataAccess/Common/SequentialByDayRepository.cs:213-235 | a save never touches another key, and changes nothing for null or empty data |
| ByDay.AfterSave | BackTestingPlatform/BackTestingPlatform/DataAccess/Common/SequentialByDayRepository.cs:213-235 | the cache is either unchanged or the key's file overwritten with the rows; it is overwritten whenever the data is non-empty and the write succeeds |
| ByDay.SaveThenRead | BackTestingPlatform/BackTestingPlatform/DataAccess/Common/SequentialByDayRepository.cs:221-226 | after a successful save of non-empty data, reading the key returns the data |
| ByDay.Fetch | BackTestingPlatform/BackTestingPlatform/DataAccess/Common/SequentialByDayRepository.cs:149-204 | each remote source is called at most once; the cache changes only when saving is on, the write succeeds and a non-empty list is returned |
| ByDay.WriteFaultSwallowed | BackTestingPlatform/BackTestingPlatform/DataAccess/Common/SequentialByDayRepository.cs:223-232 | a failing write changes neither the outcome nor the source calls, and leaves the cache untouched |
| ByDay.EmptyResultNotCached | BackTestingPlatform/BackTestingPlatform/DataAccess/Common/SequentialByDayRepository.cs:216-220 | an empty result is never written to the cache |
| ByDay.EmptyRemoteResultNotServedLater | BackTestingPlatform/BackTestingPlatform/DataAccess/Common/SequentialByDayRepository.cs:196-220 | when the key had no file and a remote source answered with zero rows, a later cache-only fetch still throws |
| ByDay.SavedResultServedFromCache | BackTestingPlatform/BackTestingPlatform/DataAccess/Common/SequentialByDayRepository.cs:196-201 | after a saving fetch returns a non-empty list and the write succeeds, a cache-only fetch returns it again with no remote call and no write |
| ByDay.FetchFromLocalCsvReadsOnly | BackTestingPlatform/BackTestingPlatform/DataAccess/Common/SequentialByDayRepository.cs:73-76 | a cache-only fetch never calls a remote source and never writes |
| ByDay.SequentialByDayRepository.ReadFromWind | BackTestingPlatform/BackTestingPlatform/DataAccess/Common/SequentialByDayRepository.cs:40 | returns Wind's reply and logs the request |
| ByDay.SequentialByDayRepository.ReadFromDefaultMssql | BackTestingPlatform/BackTestingPlatform/DataAccess/Common/SequentialByDayRepository.cs:48 | returns MSSQL's reply and logs the request |
| ByDay.SequentialByDayRepository.SaveToLocalCsvFile | BackTestingPlatform/BackTestingPlatform/DataAccess/Common/SequentialByDayRepository.cs:213-235 | the store becomes `AfterSave` of the old store: unchanged for null or empty data or a failing write, otherwise the key's file is overwritten |
| ByDay.SequentialByDayRepository.TrySources | BackTestingPlatform/BackTestingPlatform/DataAccess/Common/SequentialByDayRepository.cs:155-195 | the guarded blocks give the result and `csvHasData` of the walk; exactly the consulted remote sources log the request |
| ByDay.SequentialByDayRepository.Fetch0 | BackTestingPlatform/BackTestingPlatform/DataAccess/Common/SequentialByDayRepository.cs:149-204 | the outcome, the store and both request logs afterwards are those of `Fetch` |
| ByDay.SequentialByDayRepository.FetchFromLocalCsv | BackTestingPlatform/BackTestingPlatform/DataAccess/Common/SequentialByDayRepository.cs:73-76 | the cached list or a throw; store and request logs unchanged |
| ByDay.SequentialByDayRepository.FetchFromWind | BackTestingPlatform/BackTestingPlatform/DataAccess/Common/SequentialByDayRepository.cs:85-88 | the outcome does not depend on the cache; store unchanged; MSSQL never called |
| ByDay.SequentialByDayRepository.FetchFromMssql | BackTestingPlatform/BackTestingPlatform/DataAccess/Common/SequentialByDayRepository.cs:97-100 | the outcome does not depend on the cache; store unchanged; Wind never called |
| ByDay.SequentialByDayRepository.FetchFromLocalCsvOrWindAndSave | BackTestingPlatform/BackTestingPlatform/DataAccess/Common/SequentialByDayRepository.cs:109-112 | the `Fetch` outcome for these flags; MSSQL never called |
| ByDay.SequentialByDayRepository.FetchFromLocalCsvOrMssql | BackTestingPlatform/BackTestingPlatform/DataAccess/Common/SequentialByDayRepository.cs:120-123 | the `Fetch` outcome for these flags; store unchanged; Wind never called |
| ByDay.SequentialByDayRepository.FetchFromLocalCsvOrMssqlAndSave | BackTestingPlatform/BackTestingPlatform/DataAccess/Common/SequentialByDayRepository.cs:132-135 | the `Fetch` outcome for these flags; Wind never called |
| ByDay.SequentialByDayRepository.FetchFromWindAndSave | BackTestingPlatform/BackTestingPlatform/DataAccess/Common/SequentialByDayRepository.cs:144-147 | calls Wind exactly once; a Wind list is returned and saved to the key's file (unless empty or the write fails); MSSQL never called |

## Left out

- The `options` dictionary of the per-year methods is only passed through to the sources. It is not modelled.
- Logging (`log.Debug`, `log.Info`, `log.Error`, `log.Warn`) is not modelled. `Kit.ToShortName` is only used in log text.
- The CSV text format and `CsvFileUtils` parsing are not modelled. A cache file is either a table of rows or unreadable, and reading an unreadable file throws.
- `FileUtils.GetCacheDataFilePath` is not modelled. A cache path is kept as the arguments given to it (configuration key plus named or positional values), so the proofs assume that resolving distinct arguments gives distinct files.
- The per-year base-class `readFromLocalCsv(path)` and `saveToLocalCsv(path, data, appendMode)` are not part of this model. The base read is assumed to behave like the per-day read: `null` when there is no file, one entity per row otherwise. The base save is assumed to overwrite the key's file with the rows, even when there are none, and never to throw. Append mode follows the per-year doc comment. The empty-list case of ByYear.SavedResultServedFromCache depends on this assumption.
- ByYear.AfterSave: states the key's new file only in overwrite mode. In append mode onto an unreadable file, the modelled store is left unchanged.
- ByDay.SequentialByDayRepository.SaveToLocalCsvFile: a write that fails part-way is modelled as leaving the old file in place. Partially written files are not modelled.
- The concrete `readFromWind` and `readFromDefaultMssql` implementations belong to subclasses and are not part of this model. Wind and MSSQL are deterministic functions of the request, so a retry within one fetch is not modelled (the source never retries).
- `toEntityFromCsv` and `DataTableUtils` conversions are opaque functions in `Config`. The round-trip lemmas take their compatibility (`RoundTrips`) as a hypothesis.
- ByDay.SequentialByDayRepository.SaveToLocalCsvFile: encoding the rows (`DataTableUtils.ToDataTable`) and building the path are assumed never to throw. In the source they run outside the `try` (SequentialByDayRepository.cs:221-222), so an exception from either one escapes `saveToLocalCsvFile` and makes `fetch0` throw although a list was fetched. Only a failing write is caught.
- Dates.Yyyymmdd: assumes a Gregorian-calendar culture. `ToString("yyyyMMdd")` uses the current culture's calendar, and under another calendar the year digits differ or dates out of that calendar's range throw.
- Time of day: the per-year period is built at midnight. The model compares dates by calendar day, and `yyyyMMdd` drops the time.
- Concurrency between repositories that share one cache directory is not modelled.
- The context files (the strategy test, the futures repository, the trade-days service) are callers and are not part of this model.

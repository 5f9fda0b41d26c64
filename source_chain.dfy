/** The ordered fallback shared by both repositories' `fetch0`: the local CSV
    cache, then Wind, then the default MSSQL source, each consulted only when
    enabled and only while no earlier source has produced a list; an exception
    from a source is caught and counts as "no list". This module states that
    order once, as a walk over the enabled sources, and proves what follows
    from it. */
module SourceChain {
  import opened Results
  import opened CsvCache

  datatype Source = Csv | Wind | Mssql

  /** Position in the fixed precedence csv -> Wind -> MSSQL. */
  function Rank(s: Source): nat {
    match s
    case Csv => 0
    case Wind => 1
    case Mssql => 2
  }

  /** The four switches of `fetch0`. */
  datatype Flags = Flags(tryCsv: bool, tryWind: bool, tryMssql0: bool, saveToCsv: bool)

  predicate Enabled(f: Flags, s: Source) {
    match s
    case Csv => f.tryCsv
    case Wind => f.tryWind
    case Mssql => f.tryMssql0
  }

  /** The enabled sources, in precedence order. */
  function Order(f: Flags): (o: seq<Source>)
    ensures forall s :: s in o <==> Enabled(f, s)
    ensures forall i, j :: 0 <= i < j < |o| ==> Rank(o[i]) < Rank(o[j])
  {
    (if f.tryCsv then [Csv] else []) + (if f.tryWind then [Wind] else []) + (if f.tryMssql0 then [Mssql] else [])
  }

  /** What each source would leave behind if it were called for this key. */
  datatype Replies<R> = Replies(csv: Reply<R>, wind: Reply<R>, mssql: Reply<R>) {
    function At(s: Source): Reply<R> {
      match s
      case Csv => csv
      case Wind => wind
      case Mssql => mssql
    }

    function With(s: Source, r: Reply<R>): Replies<R> {
      match s
      case Csv => this.(csv := r)
      case Wind => this.(wind := r)
      case Mssql => this.(mssql := r)
    }
  }

  /** The source that produced the list together with the list, if any, and
      the sources called, in call order. */
  datatype Walked<R> = Walked(hit: Option<(Source, seq<R>)>, consulted: seq<Source>)

  /** Calls the sources of `srcs` in turn until one produces a list. */
  function Walk<R>(srcs: seq<Source>, rs: Replies<R>): Walked<R> {
    if srcs == [] then Walked(None, [])
    else if rs.At(srcs[0]).Rows? then Walked(Some((srcs[0], rs.At(srcs[0]).rows)), [srcs[0]])
    else
      var rest := Walk(srcs[1..], rs);
      Walked(rest.hit, [srcs[0]] + rest.consulted)
  }

  function Run<R>(f: Flags, rs: Replies<R>): Walked<R> {
    Walk(Order(f), rs)
  }

  /** `csvHasData`: set when the cache was tried and its read gave a list. */
  predicate CsvHasData<R>(f: Flags, rs: Replies<R>): (b: bool)
    ensures b ==> rs.csv.Rows? && Run(f, rs) == Walked(Some((Csv, rs.csv.rows)), [Csv])
  {
    RunStages(f, rs);
    f.tryCsv && rs.csv.Rows?
  }

  /** The guard of the write-back: `!csvHasData && result != null && saveToCsv`. */
  predicate WritesBack<R>(f: Flags, rs: Replies<R>): (b: bool)
    ensures b ==> f.saveToCsv && Outcome(Run(f, rs)).Returned?
  {
    !CsvHasData(f, rs) && Run(f, rs).hit.Some? && f.saveToCsv
  }

  /** The end of `fetch0`: `result.Count` throws on `null`, else `result` is returned. */
  function Outcome<R>(w: Walked<R>): (r: Fetched<R>)
    ensures r.Threw? <==> w.hit.None?
    ensures r.Threw? ==> r.error == NullReference
    ensures r.Returned? ==> r.list == w.hit.value.1
  {
    if w.hit.None? then Threw(NullReference) else Returned(w.hit.value.1)
  }

  /** No enabled source before `s` produced a list. */
  predicate NoEarlierList<R>(f: Flags, rs: Replies<R>, s: Source) {
    forall t :: Enabled(f, t) && Rank(t) < Rank(s) ==> !rs.At(t).Rows?
  }

  /** A walk calls a prefix of `srcs`; every source it calls but the last
      failed to produce a list; it ends with a list exactly when the last call
      produced one, and it runs out of sources only when none did. */
  lemma {:induction false} WalkStopsAtFirstList<R>(srcs: seq<Source>, rs: Replies<R>)
    ensures var w := Walk(srcs, rs);
      && |w.consulted| <= |srcs|
      && w.consulted == srcs[..|w.consulted|]
      && (forall j :: 0 <= j < |w.consulted| - 1 ==> !rs.At(srcs[j]).Rows?)
      && (w.hit.Some? ==> |w.consulted| > 0
                          && rs.At(srcs[|w.consulted| - 1]).Rows?
                          && w.hit.value == (srcs[|w.consulted| - 1], rs.At(srcs[|w.consulted| - 1]).rows))
      && (w.hit.None? <==> forall j :: 0 <= j < |srcs| ==> !rs.At(srcs[j]).Rows?)
      && (w.hit.None? ==> w.consulted == srcs)
  {
    if srcs != [] && !rs.At(srcs[0]).Rows? {
      WalkStopsAtFirstList(srcs[1..], rs);
      var rest := Walk(srcs[1..], rs);
      assert [srcs[0]] + srcs[1..][..|rest.consulted|] == srcs[..|rest.consulted| + 1];
      forall j | 0 <= j < |srcs| - 1 ensures srcs[1..][j] == srcs[j + 1] { }
    }
  }

  /** One stage of `fetch0`: a disabled source passes through; an enabled one
      is called and either ends the chain with its list or hands over. */
  function Stage<R>(enabled: bool, s: Source, rs: Replies<R>, rest: Walked<R>): Walked<R> {
    if !enabled then rest
    else if rs.At(s).Rows? then Walked(Some((s, rs.At(s).rows)), [s])
    else Walked(rest.hit, [s] + rest.consulted)
  }

  lemma WalkCons<R>(s: Source, srcs: seq<Source>, rs: Replies<R>)
    ensures Walk([s] + srcs, rs) == Stage(true, s, rs, Walk(srcs, rs))
  {
    assert ([s] + srcs)[1..] == srcs;
  }

  /** The three guarded blocks of `fetch0`, one stage per source. */
  function Staged<R>(f: Flags, rs: Replies<R>): (w: Walked<R>)
    ensures forall s :: s in w.consulted ==> Enabled(f, s)
    ensures w.hit.Some? ==> Enabled(f, w.hit.value.0) && rs.At(w.hit.value.0) == Rows(w.hit.value.1)
    ensures w.hit.Some? ==> |w.consulted| > 0 && w.consulted[|w.consulted| - 1] == w.hit.value.0
  {
    Stage(f.tryCsv, Csv, rs, Stage(f.tryWind, Wind, rs, Stage(f.tryMssql0, Mssql, rs, Walked(None, []))))
  }

  /** The walk over the enabled sources is the three guarded blocks of `fetch0`. */
  lemma RunStages<R>(f: Flags, rs: Replies<R>)
    ensures Run(f, rs) == Staged(f, rs)
  {
    var c := if f.tryMssql0 then [Mssql] else [];
    var bc := (if f.tryWind then [Wind] else []) + c;
    assert Order(f) == (if f.tryCsv then [Csv] else []) + bc;
    if f.tryCsv { WalkCons(Csv, bc, rs); } else { assert Order(f) == bc; }
    if f.tryWind { WalkCons(Wind, c, rs); } else { assert bc == c; }
    if f.tryMssql0 { WalkCons(Mssql, [], rs); assert c == [Mssql] + []; }
  }

  /** A source is called exactly when it is enabled and no enabled source
      ahead of it produced a list: precedence is always csv -> Wind -> MSSQL. */
  lemma ConsultedIff<R>(f: Flags, rs: Replies<R>, s: Source)
    ensures s in Run(f, rs).consulted <==> Enabled(f, s) && NoEarlierList(f, rs, s)
  {
    RunStages(f, rs);
  }

  /** The result is the list of the first enabled source, in precedence order,
      that produced one. */
  lemma HitIff<R>(f: Flags, rs: Replies<R>, s: Source, list: seq<R>)
    ensures Run(f, rs).hit == Some((s, list)) <==> Enabled(f, s) && rs.At(s) == Rows(list) && NoEarlierList(f, rs, s)
  {
    RunStages(f, rs);
  }

  /** `fetch0` reaches `result.Count` with `null` exactly when no enabled
      source produced a list; an empty result is never made up. */
  lemma NothingFoundThrows<R>(f: Flags, rs: Replies<R>)
    ensures Outcome(Run(f, rs)) == Threw(NullReference) <==> forall s :: Enabled(f, s) ==> !rs.At(s).Rows?
    ensures Outcome(Run(f, rs)).Returned? ==> exists s :: Enabled(f, s) && rs.At(s) == Rows(Outcome(Run(f, rs)).list)
  {
    RunStages(f, rs);
  }

  /** A list read from the cache, even an empty one, ends the chain: neither
      remote source is called and nothing is written back. */
  lemma CsvListEndsChain<R>(f: Flags, rs: Replies<R>)
    requires f.tryCsv && rs.csv.Rows?
    ensures Run(f, rs) == Walked(Some((Csv, rs.csv.rows)), [Csv])
    ensures CsvHasData(f, rs) && !WritesBack(f, rs)
  {
    RunStages(f, rs);
  }

  /** An exception from a source is swallowed: the run is the one that source
      would have given by returning `null`, so later sources are still tried. */
  lemma {:induction false} FaultActsAsNull<R>(srcs: seq<Source>, rs: Replies<R>, s: Source)
    requires rs.At(s).Fault?
    ensures Walk(srcs, rs.With(s, Null)) == Walk(srcs, rs)
  {
    if srcs != [] {
      assert rs.With(s, Null).At(srcs[0]).Rows? == rs.At(srcs[0]).Rows?;
      FaultActsAsNull(srcs[1..], rs, s);
    }
  }

  /** Data is written back exactly when saving is on and the result came from
      a remote source; `csvHasData` is set exactly when it came from the cache. */
  lemma WriteBackIff<R>(f: Flags, rs: Replies<R>)
    ensures CsvHasData(f, rs) <==> Run(f, rs).hit.Some? && Run(f, rs).hit.value.0 == Csv
    ensures WritesBack(f, rs) <==> f.saveToCsv && Run(f, rs).hit.Some? && Run(f, rs).hit.value.0 != Csv
  {
    var w := Run(f, rs);
    if w.hit.Some? {
      HitIff(f, rs, w.hit.value.0, w.hit.value.1);
    }
    if CsvHasData(f, rs) {
      CsvListEndsChain(f, rs);
    }
  }

  // The flag tuples fixed by the public `fetchFrom...` wrappers.
  const FromLocalCsv := Flags(true, false, false, false)
  const FromWind := Flags(false, true, false, false)
  const FromMssql := Flags(false, false, true, false)
  const FromLocalCsvOrWindAndSave := Flags(true, true, false, true)
  const FromLocalCsvOrMssql := Flags(true, false, true, false)
  const FromLocalCsvOrMssqlAndSave := Flags(true, false, true, true)
  const FromWindAndSave := Flags(false, true, false, true)

  /** `fetchFromLocalCsv` reads the cache only and never saves. */
  lemma LocalCsvOnly<R>(rs: Replies<R>)
    ensures Run(FromLocalCsv, rs).consulted == [Csv]
    ensures Outcome(Run(FromLocalCsv, rs)) == if rs.csv.Rows? then Returned(rs.csv.rows) else Threw(NullReference)
    ensures !WritesBack(FromLocalCsv, rs)
  {
    RunStages(FromLocalCsv, rs);
  }

  /** `fetchFromWind` calls Wind only, whatever the cache holds, and never saves. */
  lemma WindOnly<R>(rs: Replies<R>, cached: Reply<R>)
    ensures Run(FromWind, rs).consulted == [Wind]
    ensures Run(FromWind, rs.With(Csv, cached)) == Run(FromWind, rs)
    ensures !WritesBack(FromWind, rs)
  {
    RunStages(FromWind, rs);
    RunStages(FromWind, rs.With(Csv, cached));
  }

  /** `fetchFromMssql` calls the default MSSQL source only and never saves. */
  lemma MssqlOnly<R>(rs: Replies<R>, cached: Reply<R>)
    ensures Run(FromMssql, rs).consulted == [Mssql]
    ensures Run(FromMssql, rs.With(Csv, cached)) == Run(FromMssql, rs)
    ensures !WritesBack(FromMssql, rs)
  {
    RunStages(FromMssql, rs);
    RunStages(FromMssql, rs.With(Csv, cached));
  }

  /** `fetchFromWindAndSave` always writes back a list Wind produced. */
  lemma WindAndSaveWrites<R>(rs: Replies<R>)
    ensures Run(FromWindAndSave, rs).consulted == [Wind]
    ensures WritesBack(FromWindAndSave, rs) <==> rs.wind.Rows?
    ensures rs.wind.Rows? ==> Outcome(Run(FromWindAndSave, rs)) == Returned(rs.wind.rows)
  {
    RunStages(FromWindAndSave, rs);
  }

  /** `fetchFromLocalCsvOrWindAndSave` never calls MSSQL and writes back a
      Wind list exactly when the cache gave none. */
  lemma LocalCsvOrWindAndSaveWrites<R>(rs: Replies<R>)
    ensures Mssql !in Run(FromLocalCsvOrWindAndSave, rs).consulted
    ensures WritesBack(FromLocalCsvOrWindAndSave, rs) <==> !rs.csv.Rows? && rs.wind.Rows?
  {
    RunStages(FromLocalCsvOrWindAndSave, rs);
  }

  /** `fetchFromLocalCsvOrMssql` never calls Wind and never saves. */
  lemma LocalCsvOrMssqlOnly<R>(rs: Replies<R>)
    ensures Wind !in Run(FromLocalCsvOrMssql, rs).consulted
    ensures Mssql in Run(FromLocalCsvOrMssql, rs).consulted <==> !rs.csv.Rows?
    ensures !WritesBack(FromLocalCsvOrMssql, rs)
  {
    RunStages(FromLocalCsvOrMssql, rs);
  }

  /** `fetchFromLocalCsvOrMssqlAndSave` never calls Wind and writes back an
      MSSQL list exactly when the cache gave none. */
  lemma LocalCsvOrMssqlAndSaveWrites<R>(rs: Replies<R>)
    ensures Wind !in Run(FromLocalCsvOrMssqlAndSave, rs).consulted
    ensures WritesBack(FromLocalCsvOrMssqlAndSave, rs) <==> !rs.csv.Rows? && rs.mssql.Rows?
  {
    RunStages(FromLocalCsvOrMssqlAndSave, rs);
  }

  /** The parts a concrete repository supplies: its type name (the default
      tag), its row/entity conversions, and its two remote reads. */
  datatype Config<!Q, !R, !Row> = Config(
    typeName: string,
    toEntity: Row -> Option<R>,
    toRow: R -> Row,
    wind: Q -> Reply<R>,
    mssql: Q -> Reply<R>)

  /** Everything one `fetch0` call does: how it ends, the cache afterwards,
      and the requests each remote source received. */
  datatype Effect<Q, R, Row> = Effect(out: Fetched<R>, files: Files<Row>, windRequests: seq<Q>, mssqlRequests: seq<Q>)

  /** The requests source `s` receives during a walk that called `consulted`. */
  function Logged<Q>(consulted: seq<Source>, s: Source, q: Q): seq<Q> {
    if s in consulted then [q] else []
  }
}

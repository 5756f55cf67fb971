/**
 * The first build layer (src/layer1.rs, with src/export.rs): every `*.rq`
 * file of the query directory becomes a table. A query whose catalog entry
 * is at least as new as its file is skipped; otherwise its directives are
 * read, its results fetched, loaded, exported to csv/tsv/parquet files and
 * commented with the query text, and only then is its catalog entry
 * updated. Catalog entries of queries that no longer exist are removed
 * first, with their tables and exported files.
 */
module Layer1 {
  import opened Base
  import opened SqlQuote
  import opened Directives
  import opened SparqlClient
  import opened PathNames
  import opened Layer1Requests
  import ResultToDuckdb
  import UsedQueries

  /** A query file: its text and modification time in microseconds since the epoch. */
  datatype SourceFile = SourceFile(text: string, mtime: int)

  /** What the build reads from its surroundings. */
  datatype Env = Env(
    net: Net,
    srcDir: string,                   // the layer-1 query directory
    distDir: string,                  // `args.dist_dir`
    queryFiles: seq<string>,          // the file names `*.rq` matches in `srcDir`, in glob order
    sources: map<string, SourceFile>, // the files on disk, by path
    decodePage: Bytes -> Option<ResultToDuckdb.ResultPage>,  // a saved body read as a results document
    accepts: string -> bool,          // whether the database runs a statement without error
    jsonsPath: string,                // where the intermediate rows are written
    fuel: nat)                        // bound on the requests of one paginated query

  datatype Layer1Error =
    | NoFileStem(path: string)
    | MissingFile(path: string)
    | CatalogFailed(catalog: UsedQueries.CatalogError)
    | MetadataFailed(metadata: DirectiveError)
    | RequestFailed(request: FetchError)
    | MalformedResults
    | StatementFailed(statement: string)
    | NoQueries(dir: string)

  datatype Processed = Skipped | Rebuilt

  /** The database's tables, their comments, and the exported files. */
  class Warehouse {
    var tables: map<string, seq<ResultToDuckdb.Row>>
    var comments: map<string, string>
    var files: set<string>

    constructor ()
      ensures tables == map[] && comments == map[] && files == {}
    {
      tables := map[];
      comments := map[];
      files := {};
    }
  }

  // ---------------------------------------------------------------------
  // Export (src/export.rs) and the statements layer 1 runs
  // ---------------------------------------------------------------------

  /** One export: the file extension and the COPY options that produce it. */
  datatype ExportType = ExportType(ext: string, format: string)

  const ExportTypes: seq<ExportType> := [
    ExportType("csv", "FORMAT CSV"),
    ExportType("tsv", "FORMAT CSV, DELIMITER '\t'"),
    ExportType("parquet", "FORMAT parquet")]
  const LayerName: string := "layer1"

  /** `dist_dir/layer1`. */
  function ExportDir(distDir: string): string
  {
    JoinPath(distDir, LayerName)
  }

  /** `dest_dir/relation.ext`. */
  function ExportPath(destDir: string, relation: string, ext: string): string
  {
    JoinPath(destDir, relation + "." + ext)
  }

  /** The files that exporting `relation` as each of `types` writes. */
  function ExportedFiles(types: seq<ExportType>, destDir: string, relation: string): set<string>
  {
    set t | t in types :: ExportPath(destDir, relation, t.ext)
  }

  /** The files exporting `relation` writes. */
  function ExportPaths(destDir: string, relation: string): set<string>
  {
    ExportedFiles(ExportTypes, destDir, relation)
  }

  function CopyStatement(database: string, relation: string, path: string, format: string): string
  {
    "COPY (FROM " + EscapeSqlIdentifier(database) + "." + EscapeSqlIdentifier(relation) + ") TO "
      + EscapeSqlIdentifier(path) + " (" + format + ")"
  }

  const CommentPrefix: string := "COMMENT ON TABLE layer1."

  function CommentStatement(name: string, query: string): string
  {
    CommentPrefix + EscapeSqlIdentifier(name) + " IS " + EscapeSqlLiteral(query)
  }

  function DropStatement(name: string): string
  {
    "DROP TABLE IF EXISTS " + EscapeSqlIdentifier(name)
  }

  /**
   * The comment statement names the table and carries the query text as
   * one literal token that reads back as exactly that text, whatever quotes
   * the query contains.
   */
  lemma CommentCarriesQuery(name: string, query: string)
    ensures var s := CommentStatement(name, query);
            var tail := s[|CommentPrefix|..];
            && ReadQuoted(tail, DoubleQuoteChar) == Some((name, " IS " + EscapeSqlLiteral(query)))
            && ReadQuoted(s[|s| - |EscapeSqlLiteral(query)|..], SingleQuoteChar) == Some((query, []))
  {
    CommentNamesTable(name, query);
    CommentEndsWithLiteral(name, query);
  }

  lemma CommentNamesTable(name: string, query: string)
    ensures var s := CommentStatement(name, query);
            ReadQuoted(s[|CommentPrefix|..], DoubleQuoteChar) == Some((name, " IS " + EscapeSqlLiteral(query)))
  {
    var sep, id, lit := " IS ", EscapeSqlIdentifier(name), EscapeSqlLiteral(query);
    var rest := sep + lit;
    assert rest[0] == sep[0] == ' ';
    assert CommentStatement(name, query) == CommentPrefix + id + rest;
    IdentifierAfterPrefix(CommentPrefix, name, rest);
  }

  lemma CommentEndsWithLiteral(name: string, query: string)
    ensures var s := CommentStatement(name, query);
            ReadQuoted(s[|s| - |EscapeSqlLiteral(query)|..], SingleQuoteChar) == Some((query, []))
  {
    var lit := EscapeSqlLiteral(query);
    SuffixOf(CommentPrefix + EscapeSqlIdentifier(name) + " IS ", lit);
    LiteralIsOneToken(query, []);
    assert lit + [] == lit;
  }

  /** The COPY statement of one export. */
  function ExportStatement(database: string, relation: string, destDir: string, t: ExportType): string
  {
    CopyStatement(database, relation, ExportPath(destDir, relation, t.ext), t.format)
  }

  /** Whether the database runs the COPY statement of every export in `types`. */
  predicate CopiesAccepted(accepts: string -> bool, database: string, relation: string, destDir: string,
                           types: seq<ExportType>)
  {
    forall t :: t in types ==> accepts(ExportStatement(database, relation, destDir, t))
  }

  /** `after` agrees with `before` on every key other than `name`. */
  ghost predicate SameExcept<V>(before: map<string, V>, after: map<string, V>, name: string)
  {
    forall n :: n != name ==> (n in after <==> n in before) && (n in after ==> after[n] == before[n])
  }

  /** `after` and `before` hold the same files outside `touched`. */
  ghost predicate SameFilesOutside(before: set<string>, after: set<string>, touched: set<string>)
  {
    forall f :: f !in touched ==> (f in after <==> f in before)
  }

  /**
   * One export: remove the old file, COPY to it, and on success the file
   * exists; a refused COPY leaves the old file removed.
   */
  method ExportOne(accepts: string -> bool, dest: string, sql: string, wh: Warehouse)
    returns (r: Result<(), Layer1Error>)
    modifies wh
    ensures wh.tables == old(wh.tables) && wh.comments == old(wh.comments)
    ensures r.Ok? <==> accepts(sql)
    ensures r.Ok? ==> wh.files == old(wh.files) + {dest}
    ensures r.Err? ==> wh.files == old(wh.files) - {dest}
  {
    if dest in wh.files {
      wh.files := wh.files - {dest};
    }
    if !accepts(sql) {
      return Err(StatementFailed(sql));
    }
    wh.files := wh.files + {dest};
    r := Ok(());
  }

  /** The destinations of the first `i` export types. */
  function Dests(types: seq<ExportType>, dest: ExportType -> string, i: nat): set<string>
    requires i <= |types|
  {
    set j | 0 <= j < i :: dest(types[j])
  }

  lemma DestsSnoc(types: seq<ExportType>, dest: ExportType -> string, i: nat)
    requires i < |types|
    ensures Dests(types, dest, i + 1) == Dests(types, dest, i) + {dest(types[i])}
  {
  }

  lemma DestsAll(types: seq<ExportType>, dest: ExportType -> string)
    ensures Dests(types, dest, |types|) == set t | t in types :: dest(t)
  {
  }

  /**
   * The export loop over `types`, each written to `dest(t)` by statement
   * `copy(t)`; the first refused statement stops it.
   */
  method ExportAll(accepts: string -> bool, types: seq<ExportType>, dest: ExportType -> string,
                   copy: ExportType -> string, wh: Warehouse)
    returns (r: Result<(), Layer1Error>)
    modifies wh
    ensures wh.tables == old(wh.tables) && wh.comments == old(wh.comments)
    ensures r.Ok? <==> forall t :: t in types ==> accepts(copy(t))
    ensures r.Ok? ==> wh.files == old(wh.files) + set t | t in types :: dest(t)
    ensures SameFilesOutside(old(wh.files), wh.files, set t | t in types :: dest(t))
  {
    assert Dests(types, dest, 0) == {};
    for i := 0 to |types|
      invariant wh.tables == old(wh.tables) && wh.comments == old(wh.comments)
      invariant forall j :: 0 <= j < i ==> accepts(copy(types[j]))
      invariant wh.files == old(wh.files) + Dests(types, dest, i)
    {
      var one := ExportOne(accepts, dest(types[i]), copy(types[i]), wh);
      if one.Err? {
        assert types[i] in types;
        assert Dests(types, dest, i) <= set t | t in types :: dest(t) by {
          forall j | 0 <= j < i ensures types[j] in types { }
        }
        return one;
      }
      DestsSnoc(types, dest, i);
    }
    DestsAll(types, dest);
    r := Ok(());
  }

  lemma ExportedFilesSnoc(types: seq<ExportType>, t: ExportType, destDir: string, relation: string)
    ensures ExportedFiles(types + [t], destDir, relation)
            == ExportedFiles(types, destDir, relation) + {ExportPath(destDir, relation, t.ext)}
  {
    assert forall u :: u in types + [t] <==> u in types || u == t;
  }

  /**
   * `export_relation_to_files`: for csv, tsv and parquet in turn, remove
   * the old file and COPY the relation to it; the first failing COPY stops.
   */
  method ExportRelationToFiles(accepts: string -> bool, database: string, relation: string, destDir: string,
                               wh: Warehouse)
    returns (r: Result<(), Layer1Error>)
    modifies wh
    ensures wh.tables == old(wh.tables) && wh.comments == old(wh.comments)
    ensures r.Ok? <==> CopiesAccepted(accepts, database, relation, destDir, ExportTypes)
    ensures r.Ok? ==> wh.files == old(wh.files) + ExportPaths(destDir, relation)
    ensures SameFilesOutside(old(wh.files), wh.files, ExportPaths(destDir, relation))
  {
    var dest := (t: ExportType) => ExportPath(destDir, relation, t.ext);
    var copy := (t: ExportType) => ExportStatement(database, relation, destDir, t);
    r := ExportAll(accepts, ExportTypes, dest, copy, wh);
    assert (set t | t in ExportTypes :: dest(t)) == ExportPaths(destDir, relation);
  }

  // ---------------------------------------------------------------------
  // `process_query`
  // ---------------------------------------------------------------------

  /** The table name of a query path: its file stem; none for a path without a file name. */
  function QueryName(path: string): Option<string>
  {
    var f := FileName(path);
    if f == [] || f == ".." then None else Some(FileStem(f))
  }

  /** The skip rule: not forced, and the catalog holds a time at least as new as the file's. */
  predicate ShouldSkip(force: bool, stored: Option<int>, current: int)
  {
    !force && stored.Some? && stored.value >= current
  }

  /** The saved bodies of a query's requests, paginated or not. */
  function FetchedBodies(env: Env, text: string, qm: QueryMetadata): Result<seq<Bytes>, FetchError>
  {
    match qm.paginate
    case Some(p) =>
      (match PagesFrom(PagerOf(env.net, qm.endpoint, text, p), p, 0, env.fuel)
       case Err(e) => Err(e)
       case Ok(ps) => Ok(seq(|ps|, i requires 0 <= i < |ps| => ps[i].body)))
    case None =>
      match Fetch(env.net.endpoint(qm.endpoint, text), env.net.parseJson)
      case Err(e) => Err(ClientFailed(e))
      case Ok(p) => Ok([p.body])
  }

  /** Every saved body read as a results document, or None if one of them is not one. */
  function DecodeAll(decode: Bytes -> Option<ResultToDuckdb.ResultPage>, bodies: seq<Bytes>)
    : Option<seq<ResultToDuckdb.ResultPage>>
  {
    if forall i :: 0 <= i < |bodies| ==> decode(bodies[i]).Some?
    then Some(seq(|bodies|, i requires 0 <= i < |bodies| => decode(bodies[i]).value))
    else None
  }

  /** What a rebuild loads for a query text: its result pages, or the first failure before loading. */
  function Build(env: Env, text: string): Result<seq<ResultToDuckdb.ResultPage>, Layer1Error>
  {
    match MetadataOf(ClassifyAll(Lines(text)))
    case Err(e) => Err(MetadataFailed(e))
    case Ok(qm) =>
      match FetchedBodies(env, text, qm)
      case Err(e) => Err(RequestFailed(e))
      case Ok(bodies) =>
        match DecodeAll(env.decodePage, bodies)
        case None => Err(MalformedResults)
        case Some(pages) => Ok(pages)
  }

  /** The statement that loads a query's pages into its table. */
  function LoadStatement(env: Env, name: string, pages: seq<ResultToDuckdb.ResultPage>): string
  {
    var bs := ResultToDuckdb.AllBindings(pages);
    ResultToDuckdb.CreateTableStatement(name, env.jsonsPath,
      ResultToDuckdb.ReadJsonColumnsStruct(ResultToDuckdb.LastVars(pages), ResultToDuckdb.ConsistentTypes(bs)))
  }

  /** The requests of one query: paginated when it has a page size, a single one otherwise. */
  method FetchResults(env: Env, text: string, qm: QueryMetadata) returns (r: Result<seq<ScratchFile>, FetchError>)
    ensures var spec := FetchedBodies(env, text, qm);
            && (r.Ok? <==> spec.Ok?)
            && (r.Err? ==> r.error == spec.error)
            && (r.Ok? ==> |r.value| == |spec.value|
                          && forall i :: 0 <= i < |r.value| ==> r.value[i].contents == spec.value[i])
  {
    if qm.paginate.Some? {
      r := RequestWithPagination(env.net, qm.endpoint, text, qm.paginate.value, env.fuel);
    } else {
      r := RequestSingle(env.net, qm.endpoint, text);
    }
  }

  /** Reads every saved file back as a results document; the first that is not one fails. */
  method ReadPages(decode: Bytes -> Option<ResultToDuckdb.ResultPage>, files: seq<ScratchFile>, ghost bodies: seq<Bytes>)
    returns (r: Option<seq<ResultToDuckdb.ResultPage>>)
    requires |files| == |bodies| && forall i :: 0 <= i < |files| ==> files[i].contents == bodies[i]
    ensures r == DecodeAll(decode, bodies)
  {
    var pages: seq<ResultToDuckdb.ResultPage> := [];
    for i := 0 to |files|
      invariant |pages| == i
      invariant forall j :: 0 <= j < i ==> decode(bodies[j]) == Some(pages[j])
    {
      var page := decode(files[i].contents);
      if page.None? {
        assert !decode(bodies[i]).Some?;
        return None;
      }
      pages := pages + [page.value];
    }
    assert pages == seq(|bodies|, i requires 0 <= i < |bodies| => decode(bodies[i]).value);
    r := Some(pages);
  }

  /**
   * `sparql_results_to_duckdb` and its statement: the table `name` now
   * holds one row per binding. `CREATE OR REPLACE TABLE` makes a new table,
   * so a comment on the old one is gone.
   */
  method LoadTable(env: Env, name: string, pages: seq<ResultToDuckdb.ResultPage>, wh: Warehouse)
    returns (r: Result<(), Layer1Error>)
    modifies wh
    ensures r.Ok? <==> env.accepts(LoadStatement(env, name, pages))
    ensures r.Ok? ==> wh.tables == old(wh.tables)[name := ResultToDuckdb.Rows(ResultToDuckdb.AllBindings(pages))]
    ensures r.Err? ==> wh.tables == old(wh.tables)
    ensures r.Ok? ==> wh.comments == old(wh.comments) - {name}
    ensures r.Err? ==> wh.comments == old(wh.comments)
    ensures wh.files == old(wh.files)
  {
    var out := new ResultToDuckdb.RowFile();
    var statement := ResultToDuckdb.SparqlResultsToDuckdb(name, pages, env.jsonsPath, out);
    if !env.accepts(statement) {
      return Err(StatementFailed(statement));
    }
    wh.tables := wh.tables[name := out.rows];
    wh.comments := wh.comments - {name};
    r := Ok(());
  }

  /** Directives, requests and decoding: everything `process_query` does before loading. */
  method BuildPages(env: Env, text: string) returns (r: Result<seq<ResultToDuckdb.ResultPage>, Layer1Error>)
    ensures r == Build(env, text)
  {
    var qm := ExtractQueryMetadata(text);
    if qm.Err? {
      return Err(MetadataFailed(qm.error));
    }
    var files := FetchResults(env, text, qm.value);
    if files.Err? {
      return Err(RequestFailed(files.error));
    }
    ghost var bodies := FetchedBodies(env, text, qm.value).value;
    var pages := ReadPages(env.decodePage, files.value, bodies);
    if pages.None? {
      return Err(MalformedResults);
    }
    r := Ok(pages.value);
  }

  /** `COMMENT ON TABLE layer1.name IS 'query'`: the table's comment becomes the query text. */
  method AddComment(env: Env, name: string, text: string, wh: Warehouse) returns (r: Result<(), Layer1Error>)
    modifies wh
    ensures r.Ok? <==> env.accepts(CommentStatement(name, text))
    ensures r.Ok? ==> wh.comments == old(wh.comments)[name := text]
    ensures r.Err? ==> wh.comments == old(wh.comments)
    ensures wh.tables == old(wh.tables) && wh.files == old(wh.files)
  {
    var comment := CommentStatement(name, text);
    if !env.accepts(comment) {
      return Err(StatementFailed(comment));
    }
    wh.comments := wh.comments[name := text];
    r := Ok(());
  }

  /** Setting a key after removing it is setting it, and either changes the map at that key only. */
  lemma SetAfterRemove<V>(m: map<string, V>, k: string, v: V)
    ensures (m - {k})[k := v] == m[k := v]
    ensures SameExcept(m, m - {k}, k) && SameExcept(m, m[k := v], k)
  {
    assert (m - {k})[k := v].Keys == m[k := v].Keys;
  }

  /**
   * The rebuild of an out-of-date query: build, load, export, comment, and
   * record the query in the catalog as the very last step.
   */
  method RebuildQuery(env: Env, name: string, src: SourceFile, catalog: UsedQueries.Catalog, wh: Warehouse)
    returns (r: Result<(), Layer1Error>)
    modifies catalog, wh
    ensures catalog.schemaReady == old(catalog.schemaReady)
    ensures r.Err? ==> catalog.entries == old(catalog.entries)
    ensures r.Ok? ==>
              && Build(env, src.text).Ok?
              && catalog.entries == old(catalog.entries)[name := UsedQueries.Entry(src.text, src.mtime)]
              && wh.tables == old(wh.tables)[name := ResultToDuckdb.Rows(ResultToDuckdb.AllBindings(Build(env, src.text).value))]
              && wh.comments == old(wh.comments)[name := src.text]
              && wh.files == old(wh.files) + ExportPaths(ExportDir(env.distDir), name)
    ensures SameExcept(old(wh.tables), wh.tables, name) && SameExcept(old(wh.comments), wh.comments, name)
    ensures SameFilesOutside(old(wh.files), wh.files, ExportPaths(ExportDir(env.distDir), name))
  {
    ghost var comments0 := wh.comments;
    var pages := BuildPages(env, src.text);
    if pages.Err? {
      return Err(pages.error);
    }
    ghost var tables0 := wh.tables;
    var loaded := LoadTable(env, name, pages.value, wh);
    if loaded.Err? {
      return loaded;
    }
    SetAfterRemove(comments0, name, src.text);
    SetAfterRemove(tables0, name, wh.tables[name]);
    var exported := ExportRelationToFiles(env.accepts, LayerName, name, ExportDir(env.distDir), wh);
    if exported.Err? {
      return exported;
    }
    var commented := AddComment(env, name, src.text, wh);
    if commented.Err? {
      return commented;
    }
    var touched := catalog.TouchMtime(name, src.text, src.mtime);
    if touched.Err? {
      return Err(CatalogFailed(touched.error));
    }
    r := Ok(());
  }

  /** Whether `process_query` skips `queryPath` against the given catalog. */
  predicate SkipsQuery(env: Env, queryPath: string, force: bool, ready: bool, entries: map<string, UsedQueries.Entry>)
  {
    && QueryName(queryPath).Some? && queryPath in env.sources && ready
    && ShouldSkip(force, UsedQueries.MtimeOf(entries, QueryName(queryPath).value), env.sources[queryPath].mtime)
  }

  /**
   * `process_query`: skip when the catalog is up to date, otherwise
   * rebuild. A failure at any step leaves the catalog as it was.
   */
  method ProcessQuery(env: Env, queryPath: string, force: bool, catalog: UsedQueries.Catalog, wh: Warehouse)
    returns (r: Result<Processed, Layer1Error>)
    modifies catalog, wh
    ensures catalog.schemaReady == old(catalog.schemaReady)
    ensures r.Err? ==> catalog.entries == old(catalog.entries)
    ensures r.Ok? ==> QueryName(queryPath).Some? && queryPath in env.sources
    ensures r.Ok? ==> catalog.entries.Keys == old(catalog.entries).Keys + {QueryName(queryPath).value}
    ensures r == Ok(Skipped) <==> SkipsQuery(env, queryPath, force, catalog.schemaReady, old(catalog.entries))
    ensures r == Ok(Skipped) ==>
              catalog.entries == old(catalog.entries) && QueryName(queryPath).value in catalog.entries
              && wh.tables == old(wh.tables) && wh.comments == old(wh.comments) && wh.files == old(wh.files)
    ensures r == Ok(Rebuilt) ==>
              var name := QueryName(queryPath).value;
              var src := env.sources[queryPath];
              && Build(env, src.text).Ok?
              && catalog.entries == old(catalog.entries)[name := UsedQueries.Entry(src.text, src.mtime)]
              && wh.tables == old(wh.tables)[name := ResultToDuckdb.Rows(ResultToDuckdb.AllBindings(Build(env, src.text).value))]
              && wh.comments == old(wh.comments)[name := src.text]
              && wh.files == old(wh.files) + ExportPaths(ExportDir(env.distDir), name)
    ensures QueryName(queryPath).None? ==>
              wh.tables == old(wh.tables) && wh.comments == old(wh.comments) && wh.files == old(wh.files)
    ensures QueryName(queryPath).Some? ==>
              var name := QueryName(queryPath).value;
              && SameExcept(old(wh.tables), wh.tables, name) && SameExcept(old(wh.comments), wh.comments, name)
              && SameFilesOutside(old(wh.files), wh.files, ExportPaths(ExportDir(env.distDir), name))
  {
    var f := FileName(queryPath);
    if f == [] || f == ".." {
      return Err(NoFileStem(queryPath));
    }
    var name := FileStem(f);
    if queryPath !in env.sources {
      return Err(MissingFile(queryPath));
    }
    var src := env.sources[queryPath];
    if !force {
      var stored := catalog.GetMtime(name);
      if stored.Err? {
        return Err(CatalogFailed(stored.error));
      }
      if stored.value.Some? && stored.value.value >= src.mtime {
        return Ok(Skipped);
      }
    }
    var rebuilt := RebuildQuery(env, name, src, catalog, wh);
    if rebuilt.Err? {
      return Err(rebuilt.error);
    }
    r := Ok(Rebuilt);
  }


  /**
   * A rebuild records the file's time, so running again on the unchanged
   * file skips it; a forced run or a newer file rebuilds.
   */
  lemma RebuildThenSkip(entries: map<string, UsedQueries.Entry>, name: string, text: string, t: int, t': int, force: bool)
    ensures ShouldSkip(force, UsedQueries.MtimeOf(entries[name := UsedQueries.Entry(text, t)], name), t') <==> !force && t' <= t
  {
  }

  // ---------------------------------------------------------------------
  // `drop_tables_for_not_existing_queries`
  // ---------------------------------------------------------------------

  /** Where reconciliation looks for exported files: a fixed `dist/layer1`, not `args.dist_dir`. */
  const ReconcileDir: string := ExportDir("dist")

  /** The catalog names that reconciliation drops: those not among `names`. */
  function DroppedNames(entries: map<string, UsedQueries.Entry>, names: seq<string>): set<string>
  {
    set n | n in entries && n !in names
  }

  /** The exported files of every dropped name, as reconciliation looks for them under `dir`. */
  function StaleFiles(types: seq<ExportType>, dir: string, dropped: set<string>): set<string>
  {
    set n, t | n in dropped && t in types :: ExportPath(dir, n, t.ext)
  }

  lemma StaleFilesAdd(types: seq<ExportType>, dir: string, dropped: set<string>, n: string)
    ensures StaleFiles(types, dir, dropped + {n})
            == StaleFiles(types, dir, dropped) + ExportedFiles(types, dir, n)
  {
  }

  lemma RemoveOneMore<V>(m: map<string, V>, dropped: set<string>, name: string)
    ensures (m - dropped) - {name} == m - (dropped + {name})
  {
    assert ((m - dropped) - {name}).Keys == (m - (dropped + {name})).Keys;
  }

  /** The names of `s` that are not among `names`. */
  function DroppedOf(s: seq<string>, names: seq<string>): set<string>
  {
    set n | n in s && n !in names
  }

  lemma DroppedOfSnoc(s: seq<string>, i: nat, names: seq<string>)
    requires i < |s|
    ensures DroppedOf(s[..i + 1], names)
            == DroppedOf(s[..i], names) + (if s[i] in names then {} else {s[i]})
  {
    assert s[..i + 1] == s[..i] + [s[i]];
  }

  /** A listing of exactly the catalog's names drops exactly the catalog names not in `names`. */
  lemma DroppedOfListing(inDb: seq<string>, entries: map<string, UsedQueries.Entry>, names: seq<string>)
    requires forall n :: n in inDb <==> n in entries
    ensures DroppedOf(inDb, names) == DroppedNames(entries, names)
  {
  }

  /** Before the loop nothing is dropped. */
  lemma NothingDropped(inDb: seq<string>, names: seq<string>, entries: map<string, UsedQueries.Entry>,
                       tables: map<string, seq<ResultToDuckdb.Row>>, comments: map<string, string>,
                       files: set<string>)
    ensures DroppedOf(inDb[..0], names) == {}
    ensures entries - {} == entries && tables - {} == tables && comments - {} == comments
    ensures files - StaleFiles(ExportTypes, ReconcileDir, {}) == files
  {
    assert (entries - {}).Keys == entries.Keys;
    assert (tables - {}).Keys == tables.Keys;
    assert (comments - {}).Keys == comments.Keys;
  }

  /** Removes whichever of the files exporting `relation` as `types` exist. */
  method RemoveExports(types: seq<ExportType>, dir: string, relation: string, wh: Warehouse)
    modifies wh
    ensures wh.files == old(wh.files) - ExportedFiles(types, dir, relation)
    ensures wh.tables == old(wh.tables) && wh.comments == old(wh.comments)
  {
    for k := 0 to |types|
      invariant wh.files == old(wh.files) - ExportedFiles(types[..k], dir, relation)
      invariant wh.tables == old(wh.tables) && wh.comments == old(wh.comments)
    {
      var path := ExportPath(dir, relation, types[k].ext);
      if path in wh.files {
        wh.files := wh.files - {path};
      }
      assert types[..k + 1] == types[..k] + [types[k]];
      ExportedFilesSnoc(types[..k], types[k], dir, relation);
    }
    assert types[..|types|] == types;
  }

  /**
   * Drops one query: its catalog entry, its table (and with it the table's
   * comment) and its exported files under `dist/layer1`.
   */
  method DropQuery(accepts: string -> bool, name: string, catalog: UsedQueries.Catalog, wh: Warehouse)
    returns (r: Result<(), Layer1Error>)
    requires catalog.schemaReady
    modifies catalog, wh
    ensures catalog.schemaReady
    ensures r.Ok? <==> accepts(DropStatement(name))
    ensures catalog.entries == old(catalog.entries) - {name}
    ensures r.Ok? ==> wh.tables == old(wh.tables) - {name}
                      && wh.files == old(wh.files) - ExportedFiles(ExportTypes, ReconcileDir, name)
    ensures r.Ok? ==> wh.comments == old(wh.comments) - {name}
    ensures r.Err? ==> wh.tables == old(wh.tables) && wh.comments == old(wh.comments) && wh.files == old(wh.files)
  {
    var deleted := catalog.Delete(name);
    var drop := DropStatement(name);
    if !accepts(drop) {
      return Err(StatementFailed(drop));
    }
    wh.tables := wh.tables - {name};
    wh.comments := wh.comments - {name};
    RemoveExports(ExportTypes, ReconcileDir, name, wh);
    r := Ok(());
  }

  /**
   * One turn of the reconciliation loop, stated against the catalog, tables,
   * comments and files before the loop and the names it has dropped so far.
   */
  method ReconcileName(accepts: string -> bool, names: seq<string>, name: string,
                       catalog: UsedQueries.Catalog, wh: Warehouse,
                       ghost entries0: map<string, UsedQueries.Entry>, ghost tables0: map<string, seq<ResultToDuckdb.Row>>,
                       ghost comments0: map<string, string>, ghost files0: set<string>, ghost dropped: set<string>)
    returns (r: Result<(), Layer1Error>)
    requires catalog.schemaReady
    requires catalog.entries == entries0 - dropped && wh.tables == tables0 - dropped
    requires wh.comments == comments0 - dropped
    requires wh.files == files0 - StaleFiles(ExportTypes, ReconcileDir, dropped)
    modifies catalog, wh
    ensures catalog.schemaReady
    ensures name in names ==> r.Ok?
    ensures r.Ok? ==>
              var now := dropped + (if name in names then {} else {name});
              && catalog.entries == entries0 - now && wh.tables == tables0 - now
              && wh.comments == comments0 - now
              && wh.files == files0 - StaleFiles(ExportTypes, ReconcileDir, now)
    ensures r.Err? ==>
              && name !in names && catalog.entries == entries0 - (dropped + {name})
              && wh.tables == tables0 - dropped && wh.comments == comments0 - dropped
              && wh.files == files0 - StaleFiles(ExportTypes, ReconcileDir, dropped)
  {
    if name in names {
      assert dropped + {} == dropped;
      return Ok(());
    }
    r := DropQuery(accepts, name, catalog, wh);
    StaleFilesAdd(ExportTypes, ReconcileDir, dropped, name);
    RemoveOneMore(entries0, dropped, name);
    RemoveOneMore(tables0, dropped, name);
    RemoveOneMore(comments0, dropped, name);
  }

  /**
   * For every catalog name absent from `names`: delete its entry, drop its
   * table with its comment, and remove whichever of its csv/tsv/parquet files exist under
   * `dist/layer1`. Names still present are untouched.
   */
  method DropTablesForNotExistingQueries(accepts: string -> bool, names: seq<string>,
                                         catalog: UsedQueries.Catalog, wh: Warehouse)
    returns (r: Result<(), Layer1Error>)
    modifies catalog, wh
    ensures catalog.schemaReady == old(catalog.schemaReady)
    ensures !old(catalog.schemaReady) ==> r.Err? && catalog.entries == old(catalog.entries)
    ensures r.Ok? ==> catalog.entries == old(catalog.entries) - DroppedNames(old(catalog.entries), names)
    ensures r.Ok? ==> wh.tables == old(wh.tables) - DroppedNames(old(catalog.entries), names)
    ensures r.Ok? ==> wh.files == old(wh.files) - StaleFiles(ExportTypes, ReconcileDir,
                                                             DroppedNames(old(catalog.entries), names))
    ensures catalog.entries.Keys <= old(catalog.entries).Keys && wh.tables.Keys <= old(wh.tables).Keys
    ensures wh.files <= old(wh.files)
    ensures forall n :: n in names && n in old(catalog.entries) ==> n in catalog.entries
    ensures r.Ok? ==> wh.comments == old(wh.comments) - DroppedNames(old(catalog.entries), names)
    ensures wh.comments.Keys <= old(wh.comments).Keys
    ensures forall n :: n in names && n in old(wh.tables) ==> n in wh.tables
    ensures forall n :: n in names && n in old(wh.comments) ==> n in wh.comments
  {
    var listed := catalog.AllQueryNames();
    if listed.Err? {
      return Err(CatalogFailed(listed.error));
    }
    var inDb := listed.value;
    ghost var entries0 := catalog.entries;
    ghost var tables0 := wh.tables;
    ghost var comments0 := wh.comments;
    ghost var files0 := wh.files;
    NothingDropped(inDb, names, entries0, tables0, comments0, files0);
    for i := 0 to |inDb|
      invariant catalog.schemaReady
      invariant catalog.entries == entries0 - DroppedOf(inDb[..i], names)
      invariant wh.tables == tables0 - DroppedOf(inDb[..i], names)
      invariant wh.files == files0 - StaleFiles(ExportTypes, ReconcileDir, DroppedOf(inDb[..i], names))
      invariant wh.comments == comments0 - DroppedOf(inDb[..i], names)
    {
      DroppedOfSnoc(inDb, i, names);
      var done := ReconcileName(accepts, names, inDb[i], catalog, wh, entries0, tables0, comments0, files0,
                                DroppedOf(inDb[..i], names));
      if done.Err? {
        return done;
      }
    }
    assert inDb[..|inDb|] == inDb;
    DroppedOfListing(inDb, entries0, names);
    r := Ok(());
  }

  /**
   * A directory that `JoinPath` joins onto as `Path::join` does: non-empty
   * and without a trailing separator.
   */
  predicate PlainDir(d: string)
  {
    d != [] && d[|d| - 1] != Sep
  }

  /**
   * Reconciliation only ever looks under `dist/layer1`: when the build
   * writes to a dist directory spelled other than `dist`, the exported
   * files of a removed query are never among the path strings it removes.
   */
  lemma StaleExportsSurvive(distDir: string, name: string, ext: string, name': string, ext': string)
    requires PlainDir(distDir) && distDir != "dist"
    requires Sep !in name + "." + ext && Sep !in name' + "." + ext'
    ensures ExportPath(ExportDir(distDir), name, ext) != ExportPath(ReconcileDir, name', ext')
  {
    var tail := name + "." + ext;
    var tail' := name' + "." + ext';
    var mine := ExportPath(ExportDir(distDir), name, ext);
    var theirs := ExportPath(ReconcileDir, name', ext');
    FileNameOfJoin(ExportDir(distDir), tail);
    FileNameOfJoin(ReconcileDir, tail');
    if mine == theirs {
      assert tail == tail';
      assert PlainDir(ExportDir(distDir)) && PlainDir(ReconcileDir);
      JoinCancels(ExportDir(distDir), ReconcileDir, tail);
      JoinCancels(distDir, "dist", LayerName);
    }
  }

  /** Two joins onto plain directories with the same last part are equal only for equal directories. */
  lemma JoinCancels(d: string, d': string, part: string)
    requires PlainDir(d) && PlainDir(d')
    requires JoinPath(d, part) == JoinPath(d', part)
    ensures d == d'
  {
    assert |d| == |d'|;
    assert d == JoinPath(d, part)[..|d|];
    assert d' == JoinPath(d', part)[..|d'|];
  }

  // ---------------------------------------------------------------------
  // `layer1`
  // ---------------------------------------------------------------------

  /** The query names: the stems of the listed `*.rq` files, in order. */
  function Names(queryFiles: seq<string>): seq<string>
  {
    seq(|queryFiles|, i requires 0 <= i < |queryFiles| => FileStem(queryFiles[i]))
  }

  /** Listed file names are non-empty and without separators, as a directory listing gives them. */
  predicate Listed(queryFiles: seq<string>)
  {
    forall i :: 0 <= i < |queryFiles| ==> queryFiles[i] != [] && Sep !in queryFiles[i]
  }

  /** The stem of a listed file name is again non-empty and without separators. */
  lemma StemOfListed(f: string)
    requires f != [] && Sep !in f
    ensures FileStem(f) != [] && Sep !in FileStem(f)
  {
    if f != ".." && LastIndex(f, Dot).Some? && LastIndex(f, Dot).value > 0 {
      var i := LastIndex(f, Dot).value;
      assert forall k | 0 <= k < i :: f[..i][k] == f[k];
    }
  }

  /** Each name's query path gives back that name. */
  lemma QueryNameOfQueryPath(srcDir: string, name: string)
    requires name != [] && Sep !in name
    ensures QueryName(QueryPath(srcDir, name)) == Some(name)
  {
    QueryPathRecoversName(srcDir, name);
  }

  /**
   * The table `layer1` builds for a listed name: it reads the file
   * `src_dir.join(name).with_extension("rq")`, and `process_query` names
   * the table after that file's stem.
   */
  function Target(srcDir: string, name: string): Option<string>
  {
    QueryName(QueryPathAsWritten(srcDir, name))
  }

  /** The tables of `names`, position by position. */
  function Targets(srcDir: string, names: seq<string>): (ts: seq<Option<string>>)
    ensures |ts| == |names|
    ensures forall i :: 0 <= i < |names| ==> ts[i] == Target(srcDir, names[i])
  {
    seq(|names|, i requires 0 <= i < |names| => Target(srcDir, names[i]))
  }

  /** No name contains a dot. */
  predicate DotFree(names: seq<string>)
  {
    forall i :: 0 <= i < |names| ==> Dot !in names[i]
  }

  /** A listed name without a dot is built into the table of that very name. */
  lemma TargetOfPlainName(srcDir: string, name: string)
    requires name != [] && Sep !in name && Dot !in name
    ensures Target(srcDir, name) == Some(name)
  {
    QueryPathAgreesWithoutDots(srcDir, name);
    QueryNameOfQueryPath(srcDir, name);
  }

  /**
   * A listed name with a dot (the stem `sales.v2` of `sales.v2.rq`) is
   * built from the file of the name without its last dotted part
   * (`sales.rq`), into the table of that shorter name.
   */
  lemma TargetOfDottedName(srcDir: string, name: string, i: nat)
    requires Sep !in name && name != ".." && 0 < i < |name| && LastIndex(name, Dot) == Some(i)
    ensures Target(srcDir, name) == Some(name[..i]) && name[..i] != name
  {
    AsWrittenDropsLastDotPart(srcDir, name, i);
    assert |FileName(QueryPathAsWritten(srcDir, name))| == i + 3;
  }

  /**
   * What the `layer1` loop has established after processing the first `i`
   * of `names`, whose tables are `ts`, against the catalog `entries0`
   * before the run: each processed name's table is in the catalog; the
   * catalog holds only names kept by the reconciliation and tables built so
   * far; and a dropped name that no listed name builds has no catalog
   * entry, table or comment.
   */
  ghost predicate Progress(names: seq<string>, ts: seq<Option<string>>, i: nat,
                           entries0: map<string, UsedQueries.Entry>, entries: map<string, UsedQueries.Entry>,
                           tables: map<string, seq<ResultToDuckdb.Row>>, comments: map<string, string>)
    requires i <= |ts|
  {
    && (forall j :: 0 <= j < i ==> ts[j].Some? && ts[j].value in entries)
    && (forall n :: n in entries ==> (n in entries0 && n in names) || Some(n) in ts[..i])
    && (forall n :: n in entries0 && n !in names && Some(n) !in ts ==>
          n !in entries && n !in tables && n !in comments)
  }

  /** Processing name `i` successfully adds its table to the catalog and touches no other table or comment. */
  lemma ProgressStep(names: seq<string>, ts: seq<Option<string>>, i: nat, entries0: map<string, UsedQueries.Entry>,
                     entries: map<string, UsedQueries.Entry>, tables: map<string, seq<ResultToDuckdb.Row>>,
                     comments: map<string, string>,
                     entries': map<string, UsedQueries.Entry>, tables': map<string, seq<ResultToDuckdb.Row>>,
                     comments': map<string, string>)
    requires i < |ts| && Progress(names, ts, i, entries0, entries, tables, comments)
    requires ts[i].Some? && entries'.Keys == entries.Keys + {ts[i].value}
    requires forall n :: ts[i] != Some(n) ==> (n in tables' <==> n in tables) && (n in comments' <==> n in comments)
    ensures Progress(names, ts, i + 1, entries0, entries', tables', comments')
  {
    assert ts[..i + 1] == ts[..i] + [ts[i]];
  }

  /** A failing name leaves the catalog alone and touches no table or comment but its own. */
  lemma ProgressFailed(names: seq<string>, ts: seq<Option<string>>, i: nat, entries0: map<string, UsedQueries.Entry>,
                       entries: map<string, UsedQueries.Entry>, tables: map<string, seq<ResultToDuckdb.Row>>,
                       comments: map<string, string>,
                       tables': map<string, seq<ResultToDuckdb.Row>>, comments': map<string, string>)
    requires i < |ts| && Progress(names, ts, i, entries0, entries, tables, comments)
    requires forall n :: ts[i] != Some(n) ==> (n in tables' <==> n in tables) && (n in comments' <==> n in comments)
    ensures Progress(names, ts, i, entries0, entries, tables', comments')
  {
    forall n | n in entries0 && n !in names && Some(n) !in ts ensures ts[i] != Some(n) {
      assert ts[i] in ts;
    }
  }

  /**
   * When every name is built into the table of its own name, a run that
   * processed all of them leaves exactly those names in the catalog.
   */
  lemma ProgressExact(names: seq<string>, ts: seq<Option<string>>, entries0: map<string, UsedQueries.Entry>,
                      entries: map<string, UsedQueries.Entry>, tables: map<string, seq<ResultToDuckdb.Row>>,
                      comments: map<string, string>)
    requires |ts| == |names| && Progress(names, ts, |names|, entries0, entries, tables, comments)
    requires forall j :: 0 <= j < |names| ==> ts[j] == Some(names[j])
    ensures forall n :: n in entries <==> n in names
  {
    assert ts[..|names|] == ts;
  }

  /**
   * `layer1`: make sure the catalog exists, list the query names (failing
   * if there are none), reconcile once, then process the queries in listing
   * order, stopping at the first failure. `reconciled` tells whether the
   * reconciliation completed and `processed` how many names were processed
   * successfully; what each step did stays done when a later one fails.
   */
  method Layer1(env: Env, force: bool, catalog: UsedQueries.Catalog, wh: Warehouse)
    returns (r: Result<(), Layer1Error>, ghost reconciled: bool, ghost processed: nat)
    modifies catalog, wh
    ensures catalog.schemaReady
    ensures env.queryFiles == [] ==>
              r == Err(NoQueries(env.srcDir)) && !reconciled && catalog.entries == old(catalog.entries)
              && wh.tables == old(wh.tables) && wh.comments == old(wh.comments) && wh.files == old(wh.files)
    ensures r.Ok? ==> reconciled && processed == |env.queryFiles|
    ensures r.Err? && reconciled ==> processed < |env.queryFiles|
    ensures !reconciled ==> processed == 0
    ensures reconciled ==>
              var names := Names(env.queryFiles);
              var ts := Targets(env.srcDir, names);
              && processed <= |ts|
              && (forall j :: 0 <= j < processed ==> ts[j].Some? && ts[j].value in catalog.entries)
              && (forall n :: n in catalog.entries ==>
                    (n in old(catalog.entries) && n in names) || Some(n) in ts[..processed])
              && (forall n :: n in old(catalog.entries) && n !in names && Some(n) !in ts ==>
                    n !in catalog.entries && n !in wh.tables && n !in wh.comments)
    ensures r.Ok? && Listed(env.queryFiles) && DotFree(Names(env.queryFiles)) ==>
              forall n :: n in catalog.entries <==> n in Names(env.queryFiles)
  {
    reconciled, processed := false, 0;
    catalog.EnsureMetadataSchema();
    var names := Names(env.queryFiles);
    if names == [] {
      return Err(NoQueries(env.srcDir)), reconciled, processed;
    }
    var dropped := DropTablesForNotExistingQueries(env.accepts, names, catalog, wh);
    if dropped.Err? {
      return Err(dropped.error), reconciled, processed;
    }
    reconciled := true;
    ghost var ts := Targets(env.srcDir, names);
    assert Progress(names, ts, 0, old(catalog.entries), catalog.entries, wh.tables, wh.comments);
    for i := 0 to |names|
      invariant catalog.schemaReady && processed == i
      invariant Progress(names, ts, i, old(catalog.entries), catalog.entries, wh.tables, wh.comments)
    {
      var path := QueryPathAsWritten(env.srcDir, names[i]);
      ghost var entries, tables, comments := catalog.entries, wh.tables, wh.comments;
      var done := ProcessQuery(env, path, force, catalog, wh);
      assert ts[i] == QueryName(path);
      assert forall n :: ts[i] != Some(n) ==> (n in wh.tables <==> n in tables) && (n in wh.comments <==> n in comments);
      if done.Err? {
        ProgressFailed(names, ts, i, old(catalog.entries), entries, tables, comments, wh.tables, wh.comments);
        return Err(done.error), reconciled, processed;
      }
      ProgressStep(names, ts, i, old(catalog.entries), entries, tables, comments, catalog.entries, wh.tables, wh.comments);
      processed := i + 1;
    }
    if Listed(env.queryFiles) && DotFree(names) {
      forall j | 0 <= j < |names| ensures ts[j] == Some(names[j]) {
        StemOfListed(env.queryFiles[j]);
        TargetOfPlainName(env.srcDir, names[j]);
      }
      ProgressExact(names, ts, old(catalog.entries), catalog.entries, wh.tables, wh.comments);
    }
    r := Ok(());
  }
}

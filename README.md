# tabulae layer-1 ingestion, modelled in Dafny

tabulae turns a directory of SPARQL `SELECT` queries into DuckDB tables. Each
`*.rq` file carries `# endpoint: URL` and, optionally, `# paginate: N`
comment directives. Layer 1 works through the query files in turn:

- It reads the directives and posts the query to the endpoint. With a page
  size, it rewrites the query with `LIMIT`/`OFFSET` page by page until a
  page comes back short.
- It infers a column type per variable from the XML Schema datatypes of the
  returned literals, and loads the bindings as rows of one table.
- It exports the table as csv, tsv and parquet, and records the query text
  as the table's comment.
- Last, it records the query's modification time in the catalog table
  `tabulae.sparql_queries`. A query whose catalog time is at least as new
  as its file is skipped.
- Before any of this, it drops the tables, catalog rows and exported files
  of queries that no longer exist.

The project models this pipeline module by module:

| file | module | models |
|---|---|---|
| `sql_quote.dfy` | `SqlQuote` | identifier and literal quoting (`duckdb_util.rs`), with a lexer-level reading of quoted tokens to state their round trip |
| `directives.dfy` | `Directives` | `str::lines`, the directive pattern `^#\s*([^:]+)\s*:\s*(.+)`, ASCII lower-casing, `usize` parsing and the scan of `extract_query_metadata` |
| `rewriter.dfy` | `Rewriter` | the top-level Slice substitution of `rewrite_query_limit_offset` over a small SPARQL algebra datatype, and what a Slice selects (SPARQL 1.1 Query Language, sections 15.4–15.5 and 18.2.5) |
| `sparql_client.dfy` | `SparqlClient` | `num_bindings` over a JSON value, and `save_sparql_result_to_file` as a loop that appends the streamed chunks to a scratch file |
| `layer1_requests.dfy` | `Layer1Requests` | `request_single` and the paging loop of `request_with_pagination`, proved against a recursive specification of the pages fetched |
| `result_to_duckdb.dfy` | `ResultToDuckdb` | the type lattice of `find_consistent_types`, the XSD-to-storage mapping, the `read_json` column struct and the row-writing loop of `sparql_results_to_duckdb` |
| `used_queries.dfy` | `UsedQueries` | the catalog as a class over a name-keyed map |
| `path_names.dfy` | `PathNames` | `Path::join`, `file_name`, `file_stem` and `with_extension` on `/`-separated strings |
| `layer1.dfy` | `Layer1` | export (`export.rs`), `process_query`, `drop_tables_for_not_existing_queries` and `layer1` over a `Warehouse` object (tables, comments, exported files) and the catalog |

Collaborators whose code is not part of this model are parameters:

- the endpoint's HTTP answer;
- the SPARQL parser and serialiser;
- the JSON parser and the decoder of a results document;
- the database's verdict on a statement (`accepts`);
- the directory listing and the files' texts and modification times.

## Model

| member | source | states |
|---|---|---|
| SqlQuote.Doubled | src/duckdb_util.rs:2 | `replace(q, qq)` lengthens the text by exactly its number of `q` characters |
| SqlQuote.ReadBody | src/duckdb_util.rs:1-7 | reading a quoted token's body always consumes at least the closing quote |
| SqlQuote.ReadQuoted | src/duckdb_util.rs:1-7 | a token read at the front consumes at least both quotes |
| SqlQuote.DoubledCounts | src/duckdb_util.rs:2 | doubling doubles the quote count and keeps every other character in order |
| SqlQuote.CountAppend | src/duckdb_util.rs:2 | character counts add up over concatenation |
| SqlQuote.WithoutAppend | src/duckdb_util.rs:2 | removing a character distributes over concatenation |
| SqlQuote.UndoubleDoubled | src/duckdb_util.rs:2 | collapsing each `qq` pair undoes the doubling exactly |
| SqlQuote.ReadBodyDoubled | src/duckdb_util.rs:2 | a doubled body followed by the closing quote reads back as the original, and the lexer stops right after that quote |
| SqlQuote.DoubledIsPaired | src/duckdb_util.rs:2 | after doubling, quote characters occur only in adjacent pairs |
| SqlQuote.DoubledNoQuote | src/duckdb_util.rs:2 | text without the quote character is unchanged by doubling |
| SqlQuote.QuotedInner | src/duckdb_util.rs:2 | between the outer quotes lies exactly the doubled text |
| SqlQuote.QuotedReads | src/duckdb_util.rs:2 | a quoted token followed by anything but a quote reads back as the original text, leaving what follows |
| SqlQuote.QuotedToken | src/duckdb_util.rs:1-7 | quoting yields one well-formed token: it reads back whole, its inner quotes are paired, undoubling gives the input, and quote-free input is only wrapped |
| SqlQuote.EscapeSqlIdentifier | src/duckdb_util.rs:1-3 | starts and ends with `"`, length is input + `"` count + 2, reads back as exactly the name, inner quotes paired, quote-free names only wrapped |
| SqlQuote.EscapeSqlLiteral | src/duckdb_util.rs:5-7 | the same for `'` |
| SqlQuote.LiteralIsOneToken | src/duckdb_util.rs:6 | a literal embedded before further statement text is read as one token holding exactly the value |
| SqlQuote.IdentifierIsOneToken | src/duckdb_util.rs:2 | the same for an identifier |
| SqlQuote.IdentifierAfterPrefix | src/duckdb_util.rs:2 | an identifier after a fixed statement prefix is read back whole, leaving the rest of the statement |
| SqlQuote.EscapeKeepsOtherCharacters | src/duckdb_util.rs:1-7 | both escapes keep every non-quote character in order and have twice the quote count plus two |
| Directives.IndexOf | src/sparql_query_metadata.rs:7 | the position of the first colon: no colon before it, a colon at it if in range |
| Directives.LeadingSpaces | src/sparql_query_metadata.rs:7 | `\s*` matches the longest whitespace prefix: all whitespace before it, none at it |
| Directives.MatchDirective | src/sparql_query_metadata.rs:7 | a matching line yields a non-empty key without a colon and a non-empty value |
| Directives.MatchAfterHash | src/sparql_query_metadata.rs:7 | after `#` the pattern matches exactly when there is text both before and after the first colon |
| Directives.Lower | src/sparql_query_metadata.rs:15 | lower-casing keeps the length |
| Directives.ClassifyAllAppend | src/sparql_query_metadata.rs:11-24 | lines are classified independently of their neighbours: classifying two blocks of lines together gives the two classifications one after the other |
| Directives.Decimal | src/sparql_query_metadata.rs:20 | the decimal spelling of a number is a non-empty digit string |
| Directives.DecimalValue | src/sparql_query_metadata.rs:20 | the digits of a decimal spelling denote that number |
| Directives.ParseDecimal | src/sparql_query_metadata.rs:20 | every 64-bit size, written with or without `+`, parses back to itself |
| Directives.FirstBadPrefix | src/sparql_query_metadata.rs:20 | once a page size has failed in a prefix of the lines, that failure is the outcome |
| Directives.ExtractQueryMetadata | src/sparql_query_metadata.rs:6-31 | the line scan with overwriting and an early exit equals the specification: first bad page size is the error, otherwise the last endpoint (or MissingEndpoint) and the last page size |
| Directives.IndexOfAfter | src/sparql_query_metadata.rs:7 | a colon-free prefix shifts the first colon by its length |
| Directives.LeadingSpacesOf | src/sparql_query_metadata.rs:7 | leading whitespace stops at the first non-space |
| Directives.MatchAfterHashAt | src/sparql_query_metadata.rs:7 | with the colon, key and value located, the pattern's groups are that key and value |
| Directives.DirectiveParts | src/sparql_query_metadata.rs:7 | where the key, colon and value sit in a directive line |
| Directives.GroupsAfterSpaces | src/sparql_query_metadata.rs:7 | the whitespace runs before the key and before the value are exactly the given padding |
| Directives.ColonAfterKey | src/sparql_query_metadata.rs:7 | the first colon is the one after the key, so colons in the value (as in URLs) stay in the value |
| Directives.AfterHashRoundTrip | src/sparql_query_metadata.rs:7 | a well-formed `key: value` after `#` matches with exactly that key and value |
| Directives.DirectiveLineRoundTrip | src/sparql_query_metadata.rs:7-13 | a well-formed directive line anywhere in the text matches with exactly its key and value |
| Directives.LowerKeys | src/sparql_query_metadata.rs:15-19 | `Endpoint` and `PAGINATE` lower-case to the recognised keys |
| Directives.ClassifyDirectiveLine | src/sparql_query_metadata.rs:12-23 | a well-formed line is an endpoint, a page size or ignored, decided by its lower-cased key alone |
| Directives.SpaceBeforeColonKeepsKey | src/sparql_query_metadata.rs:7 | whitespace before the colon stays in the key, so `# endpoint : x` is not recognised |
| Directives.LastEndpointSkips | src/sparql_query_metadata.rs:16-18 | a non-endpoint line does not affect which endpoint is last |
| Directives.LastPaginateSkips | src/sparql_query_metadata.rs:19-21 | a non-paginate line does not affect which page size is last |
| Directives.FirstBadSkips | src/sparql_query_metadata.rs:20 | a line without a bad page size does not affect which failure comes first |
| Directives.UnrecognisedLineIgnored | src/sparql_query_metadata.rs:22 | an unrecognised line changes nothing wherever it stands |
| Directives.EndpointLastWins | src/sparql_query_metadata.rs:16-18 | a later endpoint replaces the earlier one and keeps the page size, unless a page size already failed |
| Directives.PaginateLastWins | src/sparql_query_metadata.rs:19-21 | a later page size replaces the earlier one, or fails at once with its value, endpoint or not |
| Directives.EndpointAnyCase | src/sparql_query_metadata.rs:15-17 | any key that lower-cases to `endpoint` sets the endpoint to the value |
| Directives.PaginateZeroAccepted | src/sparql_query_metadata.rs:20 | `paginate: 0` is accepted as page size 0 |
| Directives.BadPageSizeBeforeMissingEndpoint | src/sparql_query_metadata.rs:20-28 | a bad page size is reported even without an endpoint, and `"10 "` is a bad page size |
| Rewriter.RewritePattern | src/sparql_query_modifier.rs:11-25 | succeeds exactly for Slice, Project and Distinct, always producing a Slice with the requested length and start over the author's pattern without its own Slice |
| Rewriter.RewriteQuery | src/sparql_query_modifier.rs:10-32 | non-SELECT queries and other top patterns are the two errors; on success only the pattern changes |
| Rewriter.RewriteTextShape | src/sparql_query_modifier.rs:3-33 | the rewrite of a text succeeds exactly when it parses to a SELECT whose top pattern is a Slice, Project or Distinct; the result then keeps the dataset and base IRI and has a Slice with the requested start and length over the author's pattern without its own Slice |
| Rewriter.RewriteShape | src/sparql_query_modifier.rs:10-32 | success iff SELECT with a Slice, Project or Distinct top pattern; the result is a Slice of exactly the requested window, dataset and base IRI kept |
| Rewriter.RewriteIdempotent | src/sparql_query_modifier.rs:12-21 | rewriting a rewritten query with the same limit and offset changes nothing |
| Rewriter.RewriteSupersedes | src/sparql_query_modifier.rs:12-14 | rewriting again with other bounds equals rewriting the original with those bounds |
| Rewriter.Window | src/sparql_query_modifier.rs:12-21 | a Slice selects at most `length` solutions, none past the end |
| Rewriter.RewrittenAsksForWindow | src/sparql_query_modifier.rs:12-21 | the rewritten query selects the window at the offset of the author's unsliced solutions, whatever LIMIT/OFFSET the author wrote |
| Rewriter.WindowsJoin | src/layer1.rs:43-47 | a full window followed by the next window is one window over both ranges |
| SparqlClient.NumBindingsOfDocument | src/sparql_client.rs:5-11 | a results document counts the bindings it holds |
| SparqlClient.NumBindingsShape | src/sparql_client.rs:5-11 | a positive count implies an array at `results.bindings`, and is its length; a non-object counts 0 |
| SparqlClient.ScratchFile.WriteAll | src/sparql_client.rs:61 | the chunk is appended to the file |
| SparqlClient.SaveSparqlResultToFile | src/sparql_client.rs:13-84 | on 2xx the file holds the chunks in arrival order and the count is `num_bindings` of it; transport, status and JSON failures are the errors; a non-success status leaves the file untouched |
| SparqlClient.ReceivedBrokenPrefix | src/sparql_client.rs:59 | a broken chunk loses the whole body |
| SparqlClient.ReceivedConcatenates | src/sparql_client.rs:53-62 | the saved body of two chunk runs is the concatenation of their bodies |
| UsedQueries.Catalog.constructor | src/used_queries.rs:3-11 | a fresh database has no schema and no rows |
| UsedQueries.Catalog.EnsureMetadataSchema | src/used_queries.rs:3-12 | creates the schema and keeps every existing row, so running it again changes nothing |
| UsedQueries.Catalog.GetMtime | src/used_queries.rs:14-24 | None exactly when no row has the name, else its stored time; an error before the schema exists |
| UsedQueries.Catalog.TouchMtime | src/used_queries.rs:26-38 | an upsert of the name's row; all other rows unchanged |
| UsedQueries.Catalog.AllQueryNames | src/used_queries.rs:40-46 | exactly the stored names, each once |
| UsedQueries.Catalog.Delete | src/used_queries.rs:48-54 | removes the name's row and nothing else; an absent name is no change |
| UsedQueries.TouchThenGet | src/used_queries.rs:26-35 | after an upsert the name reads back the new time and every other name its old answer |
| UsedQueries.DeleteThenGet | src/used_queries.rs:48-53 | after a delete the name has no time, other names keep theirs, deleting an absent name changes nothing |
| PathNames.LastIndex | src/layer1.rs:156 | the position of the last occurrence, with none after it |
| PathNames.FileNameOfJoin | src/layer1.rs:165 | joining a separator-free part makes it the file name |
| PathNames.StemOfExtended | src/layer1.rs:156 | the stem of `name.ext` is `name` |
| PathNames.DottedNameListed | src/layer1.rs:153-158 | the file `sales.v2.rq` is listed under the name `sales.v2` |
| PathNames.DottedNameAsWritten | src/layer1.rs:164-165 | the path built for `sales.v2` is `queries/sales.rq`, another query's file |
| PathNames.AsWrittenDropsLastDotPart | src/layer1.rs:164-165 | every name with an inner dot is looked up under the part before its last dot, whose stem is not the name |
| PathNames.AsWrittenIsQueryPath | src/layer1.rs:165 | the path `with_extension` builds for a dotted name is the query path of its shortened name |
| PathNames.WithExtensionOfJoin | src/layer1.rs:165 | `dir.join(f).with_extension(e)` is `dir/stem(f).e` |
| PathNames.QueryPathRecoversName | src/layer1.rs:164-166 | the corrected path `dir/name.rq` has file name `name.rq` and stem `name` |
| PathNames.QueryPathAgreesWithoutDots | src/layer1.rs:165 | for dot-free names the written and corrected paths agree |
| Layer1Requests.PrependAppend | src/layer1.rs:42 | pushing pages one run after another equals pushing both runs at once |
| Layer1Requests.PagesFromStep | src/layer1.rs:35-48 | one loop step: a short page ends with that page, a full page continues at offset plus its count |
| Layer1Requests.RequestPage | src/layer1.rs:36-41 | one rewritten request saves exactly the page the specification fetches, or fails with its error |
| Layer1Requests.SavedSnoc | src/layer1.rs:42 | pushing a file holding the next page keeps files and pages in step |
| Layer1Requests.PageStep | src/layer1.rs:36-47 | one iteration keeps the loop invariant: an error is the specification's error, a short page completes it, a full page advances the offset by its count |
| Layer1Requests.CollectPages | src/layer1.rs:33-50 | the loop returns one file per page the specification fetches, in order, or the specification's error |
| Layer1Requests.RequestWithPagination | src/layer1.rs:25-51 | `request_with_pagination` returns one file per requested page, in request order, holding that page's body, or the first rewrite or fetch error |
| Layer1Requests.RequestSingle | src/layer1.rs:13-23 | one fetch of the unmodified query, giving exactly one fresh file with the body, or the client error |
| Layer1Requests.PagesStopAtFirstShort | src/layer1.rs:43-47 | the last page is the only short one, and at most one page is fetched per request allowed |
| Layer1Requests.PageOffsets | src/layer1.rs:34-47 | page i is the answer at offset = the sum of the counts of pages 0..i-1 |
| Layer1Requests.ZeroPageSizeNeverFinishes | src/layer1.rs:43 | with page size 0 no page is ever short, so the loop never ends on its own |
| Layer1Requests.RewriteOutcomeIgnoresOffset | src/layer1.rs:36 | whether the rewrite fails, and how, does not depend on the offset |
| Layer1Requests.RewriteFailsFirstOrNever | src/layer1.rs:36 | a rewrite failure is already the outcome at the first offset, before any fetch |
| Layer1Requests.TruthfulPage | src/layer1.rs:36-43 | against an endpoint that answers each rewritten query truthfully, each page counts its window |
| Layer1Requests.WindowAtOffset | src/layer1.rs:43-47 | a short window is the rest of the solutions; a full one is followed by the rest |
| Layer1Requests.RetrievedCons | src/layer1.rs:42-47 | totals and retrieved solutions add up page by page |
| Layer1Requests.Capacity | src/layer1.rs:35 | the number of solutions a request budget can hold |
| Layer1Requests.ShortWindowEnds | src/layer1.rs:43-45 | a short page retrieves the rest of the solutions |
| Layer1Requests.FullWindowContinues | src/layer1.rs:47 | a full page followed by pages retrieving the rest retrieves the rest from the earlier offset |
| Layer1Requests.PagesFromWindows | src/layer1.rs:33-48 | with truthful page counts and enough requests, the pages retrieve every remaining solution |
| Layer1Requests.TruthfulEndpointGivesAllSolutions | src/layer1.rs:25-51 | against an endpoint whose page counts are truthful and a positive page size, the pages ask for consecutive LIMIT/OFFSET windows that together are all solutions of the query, in order, each once, and the logged total is their number; the page bodies themselves are not related to the solutions |
| ResultToDuckdb.Next | src/sparql_result_to_duckdb.rs:63-79 | no datatype changes nothing, Inconsistent is absorbing, the state only rises in the lattice, and any datatype makes it observed |
| ResultToDuckdb.ObserveBinding | src/sparql_result_to_duckdb.rs:62-81 | one binding moves each variable's state one lattice step by its datatype |
| ResultToDuckdb.KeepConsistent | src/sparql_result_to_duckdb.rs:85-90 | keeps exactly the Consistent variables, with their datatypes |
| ResultToDuckdb.FindConsistentTypes | src/sparql_result_to_duckdb.rs:51-93 | the nested loops compute the specification over all bindings of all pages |
| ResultToDuckdb.StateNeedsKey | src/sparql_result_to_duckdb.rs:63-71 | only variables some binding declares a datatype for are observed |
| ResultToDuckdb.DeclaredInAppend | src/sparql_result_to_duckdb.rs:62-63 | the declared datatypes of a variable grow by the new binding's one |
| ResultToDuckdb.StateMeaning | src/sparql_result_to_duckdb.rs:56-83 | Unobserved iff no datatype declared; Consistent(D) iff D is the only datatype declared |
| ResultToDuckdb.ConsistentTypesMeaning | src/sparql_result_to_duckdb.rs:51-93 | the output maps k to D exactly when every declared datatype of k, and at least one, is D |
| ResultToDuckdb.ConsistentTypesOrderFree | src/sparql_result_to_duckdb.rs:56-62 | the output does not depend on page or binding order or repetition |
| ResultToDuckdb.XsdTypeToDuckdbType | src/sparql_result_to_duckdb.rs:95-103 | integer, double and boolean map to INT64, DOUBLE and BOOLEAN, each iff; everything else, xsd:decimal included, to VARCHAR |
| ResultToDuckdb.Columns | src/sparql_result_to_duckdb.rs:106-113 | one column per variable, in order, typed by its consistent datatype or VARCHAR |
| ResultToDuckdb.ReadJsonColumnsStruct | src/sparql_result_to_duckdb.rs:105-119 | a `{...}` text that parses back as exactly the column list |
| ResultToDuckdb.ParseEntryHead | src/sparql_result_to_duckdb.rs:114 | reading one `'name': 'type'` entry consumes text |
| ResultToDuckdb.AfterName | src/sparql_result_to_duckdb.rs:114 | the separator between name and type is `": "` |
| ResultToDuckdb.ParseEntryHeadOfEntry | src/sparql_result_to_duckdb.rs:114 | one entry reads back as its name and type, leaving what follows |
| ResultToDuckdb.ParseLastEntry | src/sparql_result_to_duckdb.rs:114-118 | a final entry before `}` reads back alone |
| ResultToDuckdb.ParseEntryThenMore | src/sparql_result_to_duckdb.rs:117 | an entry followed by `", "` reads back before the rest |
| ResultToDuckdb.ParseOneEntry | src/sparql_result_to_duckdb.rs:114-118 | a one-column struct reads back |
| ResultToDuckdb.ParseEntryCons | src/sparql_result_to_duckdb.rs:114-118 | one more leading column keeps the struct readable |
| ResultToDuckdb.JoinCons | src/sparql_result_to_duckdb.rs:117 | `join(", ")` of a non-empty list puts the separator after the first part |
| ResultToDuckdb.ParseEntriesOfJoin | src/sparql_result_to_duckdb.rs:106-118 | the joined entries of any non-empty column list read back as that list |
| ResultToDuckdb.JoinedEntriesNonEmpty | src/sparql_result_to_duckdb.rs:117 | joined entries of a non-empty list are non-empty |
| ResultToDuckdb.ColumnsStructRoundTrip | src/sparql_result_to_duckdb.rs:105-119 | any column list, empty included, reads back from its struct text |
| ResultToDuckdb.RowOfValuesOnly | src/sparql_result_to_duckdb.rs:146-151 | two bindings over the same variables with the same value strings give the same row, whatever their term types, datatypes and language tags |
| ResultToDuckdb.Rows | src/sparql_result_to_duckdb.rs:145-154 | one row per binding |
| ResultToDuckdb.CreateTableNamesTable | src/sparql_result_to_duckdb.rs:168-173 | the statement names the table as one identifier token, followed by the `read_json` clause |
| ResultToDuckdb.ClauseStartsWithSpace | src/sparql_result_to_duckdb.rs:169 | the clause after the table name starts with a space, so the identifier token ends there |
| ResultToDuckdb.RowFile.Append | src/sparql_result_to_duckdb.rs:153 | appends one row to the intermediate file |
| ResultToDuckdb.RowsSnoc | src/sparql_result_to_duckdb.rs:145-154 | one more binding appends its row |
| ResultToDuckdb.WriteRows | src/sparql_result_to_duckdb.rs:145-154 | one page's loop appends that page's rows in binding order |
| ResultToDuckdb.SparqlResultsToDuckdb | src/sparql_result_to_duckdb.rs:121-179 | the file holds one row per binding in page then binding order, and the statement uses the last page's vars and the consistent types of all bindings |
| ResultToDuckdb.RowsMatchBindings | src/sparql_result_to_duckdb.rs:145-154 | row i is the row of binding i |
| Layer1.CommentCarriesQuery | src/layer1.rs:99-103 | the comment statement names the table as one identifier and ends with one literal that reads back as exactly the query text |
| Layer1.ExportOne | src/export.rs:16-31 | one COPY, succeeding iff the statement is accepted: on success the file exists; on failure the old file has still been removed; tables and comments are unchanged |
| Layer1.DestsSnoc | src/export.rs:16-17 | one more export type adds its file |
| Layer1.DestsAll | src/export.rs:16-17 | all export types give all their files |
| Layer1.ExportAll | src/export.rs:16-33 | succeeds iff every COPY is accepted, and then adds one file per export type; whatever the outcome, no file outside those destinations changes |
| Layer1.ExportedFilesSnoc | src/export.rs:11-17 | the files of one more type are added |
| Layer1.ExportRelationToFiles | src/export.rs:5-34 | on success exactly `relation.csv`, `.tsv` and `.parquet` are added under the directory; whatever the outcome, no other file changes and tables and comments are untouched |
| Layer1.FetchResults | src/layer1.rs:88-92 | paginated or single, the saved files hold exactly the bodies the specification fetches |
| Layer1.ReadPages | src/sparql_result_to_duckdb.rs:137-142 | every saved body is read back as a results document, or None if one is not |
| Layer1.LoadTable | src/layer1.rs:94 | on success the table holds the rows of all bindings and, being a new table, has no comment; on failure tables and comments are unchanged |
| Layer1.BuildPages | src/layer1.rs:84-92 | the steps before loading either yield the result pages or the first failure |
| Layer1.AddComment | src/layer1.rs:99-104 | on success the table's comment is the query text |
| Layer1.RebuildQuery | src/layer1.rs:84-108 | on success table, exports, comment and catalog row are all in place; on failure the catalog is unchanged, because the catalog is written last; whatever the outcome, no other table, comment or file changes |
| Layer1.ProcessQuery | src/layer1.rs:52-109 | skipped iff not forced and the stored time is at least the file's time, and then nothing changes; otherwise rebuilt with the catalog updated last; only the table, comment and exported files of the path's stem can change |
| Layer1.RebuildThenSkip | src/layer1.rs:73-82 | after a rebuild the query is skipped next time iff not forced and the file is no newer |
| Layer1.StaleFilesAdd | src/layer1.rs:128-134 | dropping one more name adds its exported files |
| Layer1.RemoveOneMore | src/layer1.rs:122 | removing names one at a time equals removing them together |
| Layer1.DroppedOfSnoc | src/layer1.rs:118-120 | one more catalog name is dropped iff it is not listed |
| Layer1.DroppedOfListing | src/layer1.rs:115-120 | going through the catalog's names drops exactly the catalog names not listed |
| Layer1.NothingDropped | src/layer1.rs:115-118 | before the loop nothing is dropped |
| Layer1.RemoveExports | src/layer1.rs:128-134 | exactly the exported files of the name are removed |
| Layer1.DropQuery | src/layer1.rs:121-134 | the catalog row goes in any case; if the DROP is accepted the table, its comment and its files under `dist/layer1` go too, and if it is refused tables, comments and files are unchanged |
| Layer1.ReconcileName | src/layer1.rs:118-136 | a listed name is untouched; an unlisted one is dropped with its table, comment and files; a refused DROP still loses the catalog row but keeps table, comment and files |
| Layer1.DropTablesForNotExistingQueries | src/layer1.rs:111-139 | exactly the catalog names absent from the list lose their row, table, comment and files under `dist/layer1`; the rest is untouched; even when a step fails, listed names keep row, table and comment and nothing is added |
| Layer1.StaleExportsSurvive | src/layer1.rs:95-116 | with a dist directory spelled other than `dist` (non-empty, no trailing `/`), no exported path is among the paths reconciliation removes |
| Layer1.JoinCancels | src/layer1.rs:116 | two joins onto non-empty directories without a trailing `/` with the same last part are equal only for equal directories |
| Layer1.StemOfListed | src/layer1.rs:153-158 | the stem of a listed file name is a non-empty name without separators |
| Layer1.QueryNameOfQueryPath | src/layer1.rs:164-166 | the table name of a name's query path is that name |
| Layer1.TargetOfPlainName | src/layer1.rs:164-166 | a listed name without a dot is processed into the table of that same name |
| Layer1.TargetOfDottedName | src/layer1.rs:164-166 | a listed name with a dot is processed from the file without its last dotted part, into the table of that shorter name |
| Layer1.ProgressStep | src/layer1.rs:164-166 | a processed name adds its table to the catalog and touches no other table or comment, so the loop's progress carries over |
| Layer1.ProgressFailed | src/layer1.rs:164-166 | a failing name leaves the catalog alone and changes no other table or comment, so what earlier steps did stays done |
| Layer1.ProgressExact | src/layer1.rs:152-166 | when each name is processed into its own table, processing all of them leaves exactly the listed names in the catalog |
| Layer1.Layer1 | src/layer1.rs:141-170 | the catalog schema is created first in every case; no query files: an error that touches no catalog row, table, comment or file. Otherwise reconciliation runs first, then the names in listing order, stopping at the first failure: every name before it has its table in the catalog, the catalog holds only kept names and tables built so far, and a dropped name no listed name builds has no catalog row, table or comment. A successful run over dot-free names leaves exactly the listed names in the catalog |

## Left out

- HTTP transport: the POST, headers, streaming and progress bars are represented by an `HttpResponse` value (status and chunks). The endpoint is a function from URL and query text to that value.
- SPARQL text parsing and serialisation: the query library's code is not part of this model. The parser and `to_string` are parameters, and the algebra is a small datatype covering only the patterns the rewrite inspects.
- JSON parsing: the JSON parser and the decoder of a results document are parameters, and pages arrive as parsed bindings.
- The SQL engine: whether a statement runs is the parameter `accepts`. Its effects are modelled on the `Warehouse` object: `CREATE OR REPLACE TABLE` replaces the table's rows and clears its comment, `COMMENT ON` sets the comment, `COPY` adds an exported file, and `DROP TABLE` removes the table together with its comment.
- How `read_json` reads the intermediate rows back: the model states the row contents and the exact statement text, not DuckDB's parsing of either.
- The file system: the query files' texts and modification times, the `*.rq` listing and the temporary files are inputs or objects.
  - `std::fs::metadata`, `create_dir_all`, `remove_file` and `read_to_string` cannot fail in the model, except that a listed file missing from `sources` is an error.
  - Non-UTF-8 file names are not represented.
  - The time conversion to `i64` microseconds is not modelled.
- Logging, progress bars and the log target strings have no effect on the model.
- Layer1Requests.RequestWithPagination: the paging loop is bounded by `fuel` requests. It reports `Unfinished` when the budget runs out, where the source loops for ever, e.g. with `paginate: 0` (see `ZeroPageSizeNeverFinishes`). It also does not state that the returned files are fresh.
- Directives.Lower: only ASCII letters are lower-cased, where Rust's `to_lowercase` follows Unicode. Only two non-ASCII characters lower-case to text containing an ASCII letter: U+212A KELVIN SIGN becomes `k`, and U+0130 becomes `i` followed by U+0307. Neither can help spell `endpoint` or `paginate`, so every key is classified exactly as the source classifies it; only the lowered text of unrecognised keys differs, and it is never used.
- PathNames.JoinPath: always inserts `/`. Rust's `Path::join` inserts none after a trailing separator or onto an empty directory, so the model's paths agree with the program's only for directories given without a trailing `/`.
- Paths are compared as strings, with no normalisation: `./dist`, `dist/.` or a symbolic link name the same directory as `dist` on the file system. Layer1.StaleExportsSurvive is about the path strings; with such a spelling of the dist directory the program does remove the exports of dropped queries.
- Layer1.Layer1: does not state that the exported files of dropped names are still absent after the run, since exporting a later query could in principle write a file at such a path; DropTablesForNotExistingQueries states their removal by the reconciliation.
- The error of a failed HTTP status keeps the body bytes; the source decodes them as text with `response.text()`, and the decoding is not modelled.
- Directives.IsSpace: `\s` is the Unicode White_Space set written out, with no other Unicode classes.
- `usize` overflow of the offset sum and of the logged total is not modelled: integers are unbounded.
- ResultToDuckdb.FindConsistentTypes: `HashMap` iteration order is not modelled. The loops visit keys in an arbitrary order, and the result is proved independent of it.
- UsedQueries.Catalog.AllQueryNames: the order of names is not specified, since the table scan's order is DuckDB's.
- The `&mut` in-place edit of the parsed query in `rewrite_query_limit_offset` is modelled as a function returning the new query. Nothing else holds the old tree, so no aliasing is lost.
- Export and later stages beyond the COPY statements: layer 2, the manifest, the command line, the frontend and the build script are not part of this model.

## Findings

| source | as written | input that shows it | evidently intended | confidence | as-written member | corrected member |
|---|---|---|---|---|---|---|
| src/layer1.rs:164-165 | `src_dir.join(name).with_extension("rq")` replaces everything after the last dot of `name` | a query file `sales.v2.rq` is listed as `sales.v2`, then looked up as `queries/sales.rq` | the path `queries/sales.v2.rq` of the listed file | not executed | Layer1.TargetOfDottedName | PathNames.QueryPathRecoversName |

The `layer1` loop is modelled as written: `Layer1.Target` is the table a listed name is processed into, and the contract of `Layer1.Layer1` is stated through it. `PathNames.QueryPath` is the corrected path, and `PathNames.QueryPathAgreesWithoutDots` shows the two agree for every name without a dot.

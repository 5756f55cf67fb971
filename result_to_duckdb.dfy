/**
 * Loading SPARQL result pages into a table (src/sparql_result_to_duckdb.rs):
 * a column type is inferred per variable from the `datatype` of the RDF
 * literals bound to it across all pages, the XML Schema Part 2 datatypes
 * `integer`, `double` and `boolean` are mapped to storage types, and every
 * binding becomes one row of value strings. The pages arrive already parsed
 * (section 3 of the SPARQL 1.1 Query Results JSON Format); executing the
 * final `CREATE OR REPLACE TABLE` statement is the database's business.
 */
module ResultToDuckdb {
  import opened Base
  import opened SqlQuote

  /** One RDF term of a binding: `type`, `xml:lang`, `datatype` and `value`. */
  datatype Term = Term(termType: string, lang: Option<string>, dataType: Option<string>, value: string)

  /** One solution: variable name to term, for the variables it binds. */
  type Binding = map<string, Term>

  /** One results document: `head.vars` and `results.bindings`. */
  datatype ResultPage = ResultPage(vars: seq<string>, bindings: seq<Binding>)

  /** `InferredResult`; an absent entry of the type map is the third state, Unobserved. */
  datatype Inferred = Inconsistent | Consistent(valueType: string)

  type TypeState = map<string, Inferred>

  /** The state of `k` in the type map, None while Unobserved. */
  function Lookup(types: TypeState, k: string): Option<Inferred>
  {
    if k in types then Some(types[k]) else None
  }

  /** The datatype a binding declares for `k`, if it binds `k` to a typed literal. */
  function DatatypeOf(b: Binding, k: string): Option<string>
  {
    if k in b then b[k].dataType else None
  }

  /** Position in the lattice Unobserved < Consistent(_) < Inconsistent. */
  function Rank(s: Option<Inferred>): nat
  {
    match s
    case None => 0
    case Some(Consistent(_)) => 1
    case Some(Inconsistent) => 2
  }

  /**
   * One observation of a variable: no datatype changes nothing, the first
   * datatype is adopted, a different one makes the variable Inconsistent,
   * and Inconsistent stays. The state only ever climbs the lattice.
   */
  function Next(s: Option<Inferred>, d: Option<string>): (r: Option<Inferred>)
    ensures d.None? ==> r == s
    ensures Rank(s) <= Rank(r)
    ensures s == Some(Inconsistent) ==> r == s
    ensures d.Some? ==> r.Some?
  {
    match d
    case None => s
    case Some(t) =>
      match s
      case None => Some(Consistent(t))
      case Some(Consistent(u)) => if u != t then Some(Inconsistent) else s
      case Some(Inconsistent) => s
  }

  /** All bindings of all pages, pages in order and bindings in order within each. */
  function AllBindings(pages: seq<ResultPage>): seq<Binding>
  {
    if pages == [] then []
    else AllBindings(pages[..|pages| - 1]) + pages[|pages| - 1].bindings
  }

  /** The state of `k` after observing `bs` in order, starting from Unobserved. */
  function StateOf(bs: seq<Binding>, k: string): Option<Inferred>
  {
    if bs == [] then None
    else Next(StateOf(bs[..|bs| - 1], k), DatatypeOf(bs[|bs| - 1], k))
  }

  /** Every variable any of the bindings binds. */
  function KeysOf(bs: seq<Binding>): set<string>
  {
    set b, k | b in bs && k in b :: k
  }

  /** The datatypes declared for `k` anywhere in `bs`. */
  function DeclaredIn(bs: seq<Binding>, k: string): set<string>
  {
    set b | b in bs && DatatypeOf(b, k).Some? :: DatatypeOf(b, k).value
  }

  /** What `find_consistent_types` returns: the variables that ended Consistent, with their datatype. */
  function ConsistentTypes(bs: seq<Binding>): map<string, string>
  {
    map k | k in KeysOf(bs) && StateOf(bs, k).Some? && StateOf(bs, k).value.Consistent?
      :: StateOf(bs, k).value.valueType
  }

  /**
   * The loop over one binding's (variable, term) pairs: each variable's
   * state takes one step with the datatype the binding declares for it;
   * variables the binding does not bind keep their state.
   */
  method ObserveBinding(types: TypeState, b: Binding) returns (types': TypeState)
    ensures forall k :: Lookup(types', k) == Next(Lookup(types, k), DatatypeOf(b, k))
  {
    types' := types;
    var keys := b.Keys;
    while keys != {}
      invariant keys <= b.Keys
      invariant forall k :: Lookup(types', k) ==
                  if k in keys then Lookup(types, k) else Next(Lookup(types, k), DatatypeOf(b, k))
      decreases |keys|
    {
      var k :| k in keys;
      var v := b[k];
      if v.dataType.Some? {
        var t := v.dataType.value;
        if k !in types' {
          types' := types'[k := Consistent(t)];
        } else if types'[k].Consistent? && types'[k].valueType != t {
          types' := types'[k := Inconsistent];
        }
      }
      keys := keys - {k};
    }
  }

  /** The final pass: keep the Consistent entries of the type map, with their datatype. */
  method KeepConsistent(types: TypeState) returns (consistent: map<string, string>)
    ensures forall k :: k in consistent <==> k in types && types[k].Consistent?
    ensures forall k :: k in consistent ==> consistent[k] == types[k].valueType
  {
    consistent := map[];
    var rest := types.Keys;
    while rest != {}
      invariant rest <= types.Keys
      invariant forall k :: k in consistent <==> k in types && k !in rest && types[k].Consistent?
      invariant forall k :: k in consistent ==> consistent[k] == types[k].valueType
      decreases |rest|
    {
      var k :| k in rest;
      if types[k].Consistent? {
        consistent := consistent[k := types[k].valueType];
      }
      rest := rest - {k};
    }
  }

  /**
   * `find_consistent_types`: fold every (variable, term) of every binding of
   * every page into the type map, then keep the Consistent entries.
   */
  method FindConsistentTypes(pages: seq<ResultPage>) returns (consistent: map<string, string>)
    ensures consistent == ConsistentTypes(AllBindings(pages))
  {
    var types: TypeState := map[];
    ghost var seen: seq<Binding> := [];
    for i := 0 to |pages|
      invariant seen == AllBindings(pages[..i])
      invariant forall k :: Lookup(types, k) == StateOf(seen, k)
    {
      assert pages[..i + 1][..i] == pages[..i];
      var bindings := pages[i].bindings;
      for j := 0 to |bindings|
        invariant seen == AllBindings(pages[..i]) + bindings[..j]
        invariant forall k :: Lookup(types, k) == StateOf(seen, k)
      {
        var b := bindings[j];
        types := ObserveBinding(types, b);
        assert (seen + [b])[..|seen|] == seen;
        seen := seen + [b];
        assert bindings[..j + 1] == bindings[..j] + [b];
      }
      assert bindings[..|bindings|] == bindings;
    }
    assert pages[..|pages|] == pages;
    consistent := KeepConsistent(types);
    forall k | StateOf(seen, k).Some?
      ensures k in KeysOf(seen)
    {
      StateNeedsKey(seen, k);
    }
  }

  /** A variable leaves Unobserved only through a binding that binds it. */
  lemma {:induction false} StateNeedsKey(bs: seq<Binding>, k: string)
    requires StateOf(bs, k).Some?
    ensures k in KeysOf(bs)
  {
    var p := bs[..|bs| - 1];
    var b := bs[|bs| - 1];
    if StateOf(p, k).Some? {
      StateNeedsKey(p, k);
      var b' :| b' in p && k in b';
      assert b' in bs;
    } else {
      assert k in b;
    }
  }

  lemma DeclaredInAppend(p: seq<Binding>, b: Binding, k: string)
    ensures DeclaredIn(p + [b], k)
            == DeclaredIn(p, k) + (if DatatypeOf(b, k).Some? then {DatatypeOf(b, k).value} else {})
  {
    var lhs := DeclaredIn(p + [b], k);
    var rhs := DeclaredIn(p, k) + (if DatatypeOf(b, k).Some? then {DatatypeOf(b, k).value} else {});
    forall t | t in lhs ensures t in rhs {
      var c :| c in p + [b] && DatatypeOf(c, k) == Some(t);
      if c != b { assert c in p; }
    }
    forall t | t in rhs ensures t in lhs {
      if t in DeclaredIn(p, k) {
        var c :| c in p && DatatypeOf(c, k) == Some(t);
        assert c in p + [b];
      } else {
        assert b in p + [b];
      }
    }
  }

  /**
   * The lattice state of a variable after any sequence of bindings:
   * Unobserved exactly when no binding declares a datatype for it,
   * Consistent(d) exactly when every declared datatype is d, and
   * otherwise Inconsistent.
   */
  lemma {:induction false} StateMeaning(bs: seq<Binding>, k: string)
    ensures StateOf(bs, k).None? <==> DeclaredIn(bs, k) == {}
    ensures forall d :: StateOf(bs, k) == Some(Consistent(d)) <==> DeclaredIn(bs, k) == {d}
  {
    if bs == [] {
      assert DeclaredIn(bs, k) == {};
    } else {
      var p := bs[..|bs| - 1];
      var b := bs[|bs| - 1];
      assert bs == p + [b];
      StateMeaning(p, k);
      DeclaredInAppend(p, b, k);
      var s := DeclaredIn(p, k);
      match DatatypeOf(b, k)
      case None =>
      case Some(t) =>
        assert DeclaredIn(bs, k) == s + {t};
        match StateOf(p, k)
        case None =>
          assert s == {};
          assert s + {t} == {t};
        case Some(Consistent(u)) =>
          assert s == {u};
          if u != t {
            forall d ensures s + {t} != {d} {
              assert u in s + {t} && t in s + {t};
            }
          }
        case Some(Inconsistent) =>
          forall d ensures s + {t} != {d} {
            var x :| x in s;
            if x != d {
              assert x in s + {t} && x !in {d};
            } else {
              assert s != {d};
              var y :| y in s && y != d;
              assert y in s + {t} && y !in {d};
            }
          }
    }
  }

  /**
   * `find_consistent_types` maps `k` to `d` exactly when some binding
   * declares a datatype for `k` and every datatype declared for `k`, on
   * every page, is `d`.
   */
  lemma ConsistentTypesMeaning(bs: seq<Binding>, k: string, d: string)
    ensures (k in ConsistentTypes(bs) && ConsistentTypes(bs)[k] == d) <==> DeclaredIn(bs, k) == {d}
  {
    StateMeaning(bs, k);
    if DeclaredIn(bs, k) == {d} {
      StateNeedsKey(bs, k);
    }
  }

  /**
   * The inferred types do not depend on the order of pages or bindings, nor
   * on repeated bindings: only on which bindings occur.
   */
  lemma ConsistentTypesOrderFree(bs1: seq<Binding>, bs2: seq<Binding>)
    requires forall b :: b in bs1 <==> b in bs2
    ensures ConsistentTypes(bs1) == ConsistentTypes(bs2)
  {
    forall k
      ensures StateOf(bs1, k) == StateOf(bs2, k)
    {
      assert DeclaredIn(bs1, k) == DeclaredIn(bs2, k);
      StateMeaning(bs1, k);
      StateMeaning(bs2, k);
    }
    assert KeysOf(bs1) == KeysOf(bs2);
  }

  // ---------------------------------------------------------------------
  // Storage types and the column specification
  // ---------------------------------------------------------------------

  const XsdInteger: string := "http://www.w3.org/2001/XMLSchema#integer"
  const XsdDouble: string := "http://www.w3.org/2001/XMLSchema#double"
  const XsdBoolean: string := "http://www.w3.org/2001/XMLSchema#boolean"
  const XsdDecimal: string := "http://www.w3.org/2001/XMLSchema#decimal"

  /**
   * `xsd_type_to_duckdb_type`: the three XML Schema datatypes with an exact
   * storage type get it, every other datatype (xsd:decimal included) is
   * stored as text.
   */
  function XsdTypeToDuckdbType(xmlType: string): (r: string)
    ensures r == "INT64" <==> xmlType == XsdInteger
    ensures r == "DOUBLE" <==> xmlType == XsdDouble
    ensures r == "BOOLEAN" <==> xmlType == XsdBoolean
    ensures r == "VARCHAR" <==> xmlType !in {XsdInteger, XsdDouble, XsdBoolean}
  {
    if xmlType == XsdInteger then "INT64"
    else if xmlType == XsdDouble then "DOUBLE"
    else if xmlType == XsdBoolean then "BOOLEAN"
    else "VARCHAR"
  }

  /** The storage type of one column: its consistent datatype's, or text. */
  function ColumnType(v: string, consistent: map<string, string>): string
  {
    if v in consistent then XsdTypeToDuckdbType(consistent[v]) else "VARCHAR"
  }

  /** The (name, storage type) pairs of the columns, in the order of `vars`. */
  function Columns(vars: seq<string>, consistent: map<string, string>): (cs: seq<(string, string)>)
    ensures |cs| == |vars|
    ensures forall i :: 0 <= i < |vars| ==> cs[i] == (vars[i], ColumnType(vars[i], consistent))
  {
    if vars == [] then [] else [(vars[0], ColumnType(vars[0], consistent))] + Columns(vars[1..], consistent)
  }

  /** `'name': 'TYPE'`. */
  function Entry(c: (string, string)): string
  {
    EscapeSqlLiteral(c.0) + ": " + EscapeSqlLiteral(c.1)
  }

  function Entries(cs: seq<(string, string)>): seq<string>
  {
    if cs == [] then [] else [Entry(cs[0])] + Entries(cs[1..])
  }

  /** The parts separated by `sep`, as `join` does. */
  function Join(parts: seq<string>, sep: string): string
  {
    if parts == [] then ""
    else if |parts| == 1 then parts[0]
    else parts[0] + sep + Join(parts[1..], sep)
  }

  /**
   * `read_json_columns_struct`: `{'v1': 'T1', 'v2': 'T2', ...}` with one
   * entry per variable in order, variables without a consistent type as
   * VARCHAR. Read back as a struct literal it yields exactly those pairs.
   */
  function ReadJsonColumnsStruct(vars: seq<string>, consistent: map<string, string>): (r: string)
    ensures |r| >= 2 && r[0] == '{' && r[|r| - 1] == '}'
    ensures ParseColumnsStruct(r) == Some(Columns(vars, consistent))
  {
    ColumnsStructRoundTrip(Columns(vars, consistent));
    "{" + Join(Entries(Columns(vars, consistent)), ", ") + "}"
  }

  /** Reads one `'name': 'TYPE'` entry at the front of `t`, returning it and the text after it. */
  function ParseEntryHead(t: string): (r: Option<((string, string), string)>)
    ensures r.Some? ==> |r.value.1| < |t|
  {
    match ReadQuoted(t, SingleQuoteChar)
    case None => None
    case Some((name, r1)) =>
      if |r1| < 2 || r1[..2] != ": " then None
      else
        match ReadQuoted(r1[2..], SingleQuoteChar)
        case None => None
        case Some((ty, r2)) => Some(((name, ty), r2))
  }

  /** Reads the entries of a struct literal up to its closing brace. */
  function ParseColumnEntries(t: string): Option<seq<(string, string)>>
    decreases |t|
  {
    match ParseEntryHead(t)
    case None => None
    case Some((c, rest)) =>
      if rest == "}" then Some([c])
      else if |rest| >= 2 && rest[..2] == ", " then
        match ParseColumnEntries(rest[2..])
        case None => None
        case Some(more) => Some([c] + more)
      else None
  }

  /** Reads a `{'name': 'TYPE', ...}` struct literal of exactly the shape `read_json_columns_struct` writes. */
  function ParseColumnsStruct(t: string): Option<seq<(string, string)>>
  {
    if t == "{}" then Some([])
    else if |t| >= 1 && t[0] == '{' then ParseColumnEntries(t[1..])
    else None
  }

  /** The text after an entry's name: the separator, the type, and what follows. */
  lemma AfterName(ty: string, after: string)
    ensures var r1 := ": " + ty + after;
            |r1| >= 2 && r1[..2] == ": " && r1[2..] == ty + after
  {
    var r1 := ": " + ty + after;
    assert r1 == ": " + (ty + after);
  }

  /** An entry is read back whole, stopping right before what follows it. */
  lemma ParseEntryHeadOfEntry(c: (string, string), after: string)
    requires after == [] || after[0] != SingleQuoteChar
    ensures ParseEntryHead(Entry(c) + after) == Some((c, after))
  {
    var r1 := ": " + EscapeSqlLiteral(c.1) + after;
    ConcatFour(EscapeSqlLiteral(c.0), ": ", EscapeSqlLiteral(c.1), after);
    LiteralIsOneToken(c.0, r1);
    AfterName(EscapeSqlLiteral(c.1), after);
    LiteralIsOneToken(c.1, after);
  }

  /** The last entry, closed by the brace. */
  lemma ParseLastEntry(c: (string, string))
    ensures ParseColumnEntries(Entry(c) + "}") == Some([c])
  {
    ParseEntryHeadOfEntry(c, "}");
  }

  /** An entry followed by `, ` and more entries. */
  lemma ParseEntryThenMore(c: (string, string), tail: string)
    ensures ParseColumnEntries(Entry(c) + (", " + tail))
            == match ParseColumnEntries(tail)
               case None => None
               case Some(more) => Some([c] + more)
  {
    var after := ", " + tail;
    ParseEntryHeadOfEntry(c, after);
    assert after != "}" && after[..2] == ", " && after[2..] == tail;
  }

  /** A single entry joined and closed. */
  lemma ParseOneEntry(c: (string, string))
    ensures ParseColumnEntries(Join(Entries([c]), ", ") + "}") == Some([c])
  {
    assert [c][1..] == [];
    assert Entries([c]) == [Entry(c)];
    ParseLastEntry(c);
  }

  /** A first entry joined onto entries that already read back. */
  lemma ParseEntryCons(c: (string, string), cs: seq<(string, string)>)
    requires cs != [] && ParseColumnEntries(Join(Entries(cs), ", ") + "}") == Some(cs)
    ensures ParseColumnEntries(Join(Entries([c] + cs), ", ") + "}") == Some([c] + cs)
  {
    assert ([c] + cs)[0] == c && ([c] + cs)[1..] == cs;
    var rest := Entries(cs);
    assert Entries([c] + cs) == [Entry(c)] + rest;
    JoinCons(Entry(c), rest, ", ");
    ParseEntryThenMore(c, Join(rest, ", ") + "}");
  }

  /** Joining a first part onto more parts, followed by the closing brace. */
  lemma JoinCons(e: string, rest: seq<string>, sep: string)
    requires rest != []
    ensures Join([e] + rest, sep) + "}" == e + (sep + (Join(rest, sep) + "}"))
  {
    assert ([e] + rest)[0] == e && ([e] + rest)[1..] == rest;
  }

  lemma {:induction false} ParseEntriesOfJoin(cs: seq<(string, string)>)
    requires cs != []
    ensures ParseColumnEntries(Join(Entries(cs), ", ") + "}") == Some(cs)
  {
    if |cs| == 1 {
      assert cs == [cs[0]];
      ParseOneEntry(cs[0]);
    } else {
      ParseEntriesOfJoin(cs[1..]);
      ParseEntryCons(cs[0], cs[1..]);
      assert [cs[0]] + cs[1..] == cs;
    }
  }

  /** The joined entries of a non-empty column list are not empty. */
  lemma JoinedEntriesNonEmpty(cs: seq<(string, string)>)
    requires cs != []
    ensures |Join(Entries(cs), ", ")| > 0
  {
    assert Entries(cs)[0] == Entry(cs[0]);
    assert |Entry(cs[0])| > 0;
  }

  /** The column specification reads back as exactly the pairs it was built from. */
  lemma ColumnsStructRoundTrip(cs: seq<(string, string)>)
    ensures ParseColumnsStruct("{" + Join(Entries(cs), ", ") + "}") == Some(cs)
  {
    var body := Join(Entries(cs), ", ");
    var t := "{" + body + "}";
    if cs == [] {
      assert t == "{}";
    } else {
      JoinedEntriesNonEmpty(cs);
      assert |t| > 2;
      assert t[1..] == body + "}";
      ParseEntriesOfJoin(cs);
    }
  }

  // ---------------------------------------------------------------------
  // `sparql_results_to_duckdb`
  // ---------------------------------------------------------------------

  /** One row of the intermediate JSON: each bound variable to its term's `value`. */
  type Row = map<string, string>

  function RowOf(b: Binding): (r: Row)
    ensures r.Keys == b.Keys
    ensures forall k :: k in b ==> r[k] == b[k].value
  {
    map k | k in b :: b[k].value
  }

  /**
   * A row keeps only the bound values: two bindings over the same variables
   * with the same values give the same row, whatever their term types,
   * datatypes and language tags.
   */
  lemma RowOfValuesOnly(b1: Binding, b2: Binding)
    requires b1.Keys == b2.Keys
    requires forall k :: k in b1 ==> b1[k].value == b2[k].value
    ensures RowOf(b1) == RowOf(b2)
  {
    assert RowOf(b1).Keys == RowOf(b2).Keys;
    forall k | k in RowOf(b1) ensures RowOf(b1)[k] == RowOf(b2)[k] {
      assert k in b1 && k in b2;
    }
  }

  /** One row per binding, in order. */
  function Rows(bs: seq<Binding>): (rs: seq<Row>)
    ensures |rs| == |bs|
  {
    if bs == [] then [] else Rows(bs[..|bs| - 1]) + [RowOf(bs[|bs| - 1])]
  }

  /** The columns come from the last page's `head.vars`; none without pages. */
  function LastVars(pages: seq<ResultPage>): seq<string>
  {
    if pages == [] then [] else pages[|pages| - 1].vars
  }

  const CreatePrefix: string := "CREATE OR REPLACE TABLE "

  /** What follows the table name: load the rows file at `jsonsPath` with the given columns. */
  function ReadJsonClause(jsonsPath: string, columns: string): string
  {
    " AS FROM read_json(" + EscapeSqlLiteral(jsonsPath) + ", columns = " + columns + ")"
  }

  function CreateTableStatement(table: string, jsonsPath: string, columns: string): string
  {
    CreatePrefix + EscapeSqlIdentifier(table) + ReadJsonClause(jsonsPath, columns)
  }

  /**
   * The statement creates the table of exactly the given name, however it
   * is spelled, and the rest of the statement is the `read_json` clause.
   */
  lemma CreateTableNamesTable(table: string, jsonsPath: string, columns: string)
    ensures var s := CreateTableStatement(table, jsonsPath, columns);
            |s| > |CreatePrefix| && s[..|CreatePrefix|] == CreatePrefix
            && ReadQuoted(s[|CreatePrefix|..], DoubleQuoteChar)
               == Some((table, ReadJsonClause(jsonsPath, columns)))
  {
    ClauseStartsWithSpace(jsonsPath, columns);
    IdentifierAfterPrefix(CreatePrefix, table, ReadJsonClause(jsonsPath, columns));
  }

  lemma ClauseStartsWithSpace(jsonsPath: string, columns: string)
    ensures |ReadJsonClause(jsonsPath, columns)| > 0 && ReadJsonClause(jsonsPath, columns)[0] == ' '
  {
    var head := " AS FROM read_json(";
    var tail := EscapeSqlLiteral(jsonsPath) + ", columns = " + columns + ")";
    assert ReadJsonClause(jsonsPath, columns) == head + tail;
  }

  /** The intermediate JSON-lines file that receives the rows. */
  class RowFile {
    var rows: seq<Row>

    constructor ()
      ensures rows == []
    {
      rows := [];
    }

    method Append(row: Row)
      modifies this
      ensures rows == old(rows) + [row]
    {
      rows := rows + [row];
    }
  }

  /** Rows of bindings written one after another. */
  lemma RowsSnoc(bs: seq<Binding>, b: Binding)
    ensures Rows(bs + [b]) == Rows(bs) + [RowOf(b)]
  {
    assert (bs + [b])[..|bs|] == bs;
  }

  /** The loop over one page's bindings: one row per binding appended to `out`, in order. */
  method WriteRows(bindings: seq<Binding>, out: RowFile, ghost before: seq<Binding>)
    requires out.rows == Rows(before)
    modifies out
    ensures out.rows == Rows(before + bindings)
  {
    assert before + bindings[..0] == before;
    for j := 0 to |bindings|
      invariant out.rows == Rows(before + bindings[..j])
    {
      RowsSnoc(before + bindings[..j], bindings[j]);
      assert before + bindings[..j + 1] == (before + bindings[..j]) + [bindings[j]];
      out.Append(RowOf(bindings[j]));
    }
    assert bindings[..|bindings|] == bindings;
  }

  /**
   * `sparql_results_to_duckdb`: infer the column types, write one row per
   * binding of every page to `out`, keep the last page's variables, and
   * build the statement that loads `out` (at `jsonsPath`) into `table`.
   */
  method SparqlResultsToDuckdb(table: string, pages: seq<ResultPage>, jsonsPath: string, out: RowFile)
    returns (statement: string)
    modifies out
    ensures out.rows == Rows(AllBindings(pages))
    ensures statement == CreateTableStatement(table, jsonsPath,
              ReadJsonColumnsStruct(LastVars(pages), ConsistentTypes(AllBindings(pages))))
  {
    var consistent := FindConsistentTypes(pages);
    var vars: seq<string> := [];
    out.rows := [];
    for i := 0 to |pages|
      invariant out.rows == Rows(AllBindings(pages[..i]))
      invariant vars == LastVars(pages[..i])
    {
      assert pages[..i + 1][..i] == pages[..i];
      vars := pages[i].vars;
      WriteRows(pages[i].bindings, out, AllBindings(pages[..i]));
    }
    assert pages[..|pages|] == pages;
    statement := CreateTableStatement(table, jsonsPath, ReadJsonColumnsStruct(vars, consistent));
  }

  /** Row i of the loaded data holds exactly the values of the i-th binding. */
  lemma {:induction false} RowsMatchBindings(bs: seq<Binding>, i: nat)
    requires i < |bs|
    ensures Rows(bs)[i] == RowOf(bs[i])
  {
    var p := bs[..|bs| - 1];
    if i < |p| {
      RowsMatchBindings(p, i);
    }
  }
}

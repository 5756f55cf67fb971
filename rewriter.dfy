/**
 * Pagination rewrite (src/sparql_query_modifier.rs): a parsed SELECT query
 * gets a top-level Slice (the LIMIT/OFFSET solution modifier of sections
 * 15.4-15.5 of the SPARQL 1.1 Query Language, whose algebra form is the
 * Slice operator of section 18.2.5) with the requested length and start.
 * Parsing is the query library's and is a parameter here.
 */
module Rewriter {
  import opened Base

  /** One solution: a mapping from variable names to RDF terms (in lexical form). */
  type Solution = map<string, string>

  /** The top of a SPARQL algebra expression, as far as the rewrite inspects it. */
  datatype GraphPattern =
    | Slice(inner: GraphPattern, start: nat, length: Option<nat>)
    | Project(inner: GraphPattern, variables: seq<string>)
    | Distinct(inner: GraphPattern)
    | Reduced(inner: GraphPattern)
    | OrderBy(inner: GraphPattern, keys: seq<string>)
    | Filter(condition: string, inner: GraphPattern)
    | Join(left: GraphPattern, right: GraphPattern)
    | Union(left: GraphPattern, right: GraphPattern)
    | Bgp(triples: seq<string>)

  /** The query forms; only SELECT can be paginated. */
  datatype Query =
    | Select(dataset: Option<seq<string>>, pattern: GraphPattern, baseIri: Option<string>)
    | Construct(template: seq<string>, dataset: Option<seq<string>>, pattern: GraphPattern, baseIri: Option<string>)
    | Describe(dataset: Option<seq<string>>, pattern: GraphPattern, baseIri: Option<string>)
    | Ask(dataset: Option<seq<string>>, pattern: GraphPattern, baseIri: Option<string>)

  datatype RewriteError =
    | QueryParseError(message: string)
    | UnsupportedPatternType
    | UnsupportedQueryType

  /** The query library's parser: a query or a parse error message. */
  type Parser = string -> Result<Query, string>

  /** The pattern under a top-level Slice, or the pattern itself when there is none. */
  function Unsliced(p: GraphPattern): GraphPattern
  {
    if p.Slice? then p.inner else p
  }

  /**
   * The substitution at the top of the pattern: a Slice gets its length and
   * start overwritten, a Project or Distinct is wrapped in a new Slice, and
   * any other top-level pattern cannot be paginated.
   */
  function RewritePattern(p: GraphPattern, limit: nat, offset: nat): (r: Option<GraphPattern>)
    ensures r.Some? <==> (p.Slice? || p.Project? || p.Distinct?)
    ensures r.Some? ==> r.value == Slice(Unsliced(p), offset, Some(limit))
  {
    match p
    case Slice(inner, _, _) => Some(Slice(inner, offset, Some(limit)))
    case Project(_, _) => Some(Slice(p, offset, Some(limit)))
    case Distinct(_) => Some(Slice(p, offset, Some(limit)))
    case _ => None
  }

  /**
   * The rewrite of an already parsed query: only SELECT queries are
   * accepted, and only their `pattern` changes.
   */
  function RewriteQuery(q: Query, limit: nat, offset: nat): (r: Result<Query, RewriteError>)
    ensures !q.Select? ==> r == Err(UnsupportedQueryType)
    ensures q.Select? && RewritePattern(q.pattern, limit, offset).None? ==> r == Err(UnsupportedPatternType)
    ensures r.Ok? ==> r.value == Select(q.dataset, Slice(Unsliced(q.pattern), offset, Some(limit)), q.baseIri)
  {
    if !q.Select? then Err(UnsupportedQueryType)
    else
      match RewritePattern(q.pattern, limit, offset)
      case None => Err(UnsupportedPatternType)
      case Some(p) => Ok(Select(q.dataset, p, q.baseIri))
  }

  /**
   * `rewrite_query_limit_offset`: parse the text, then rewrite. A parse
   * failure is reported before any rewriting.
   */
  function RewriteQueryLimitOffset(parse: Parser, text: string, limit: nat, offset: nat)
    : (r: Result<Query, RewriteError>)
    ensures parse(text).Err? ==> r == Err(QueryParseError(parse(text).error))
    ensures parse(text).Ok? ==> r == RewriteQuery(parse(text).value, limit, offset)
  {
    match parse(text)
    case Err(message) => Err(QueryParseError(message))
    case Ok(q) => RewriteQuery(q, limit, offset)
  }

  // ---------------------------------------------------------------------
  // Properties of the rewrite
  // ---------------------------------------------------------------------

  /**
   * On success the query is a SELECT whose top pattern is a Slice with
   * exactly the requested length and start over the original pattern with
   * any Slice of the author's removed; the dataset and base IRI are kept.
   * It succeeds exactly for SELECT queries whose top pattern is a Slice,
   * Project or Distinct.
   */
  lemma RewriteShape(q: Query, limit: nat, offset: nat)
    ensures RewriteQuery(q, limit, offset).Ok? <==>
              q.Select? && (q.pattern.Slice? || q.pattern.Project? || q.pattern.Distinct?)
    ensures RewriteQuery(q, limit, offset).Ok? ==>
              var r := RewriteQuery(q, limit, offset).value;
              && r.Select?
              && r.pattern == Slice(Unsliced(q.pattern), offset, Some(limit))
              && r.dataset == q.dataset && r.baseIri == q.baseIri
  {
  }

  /** Rewriting a rewritten query with the same limit and offset changes nothing. */
  lemma RewriteIdempotent(q: Query, limit: nat, offset: nat)
    requires RewriteQuery(q, limit, offset).Ok?
    ensures RewriteQuery(RewriteQuery(q, limit, offset).value, limit, offset)
            == RewriteQuery(q, limit, offset)
  {
    var r := RewriteQuery(q, limit, offset).value;
    assert r.pattern.Slice?;
  }

  /**
   * `RewriteShape` lifted to the text: the rewrite succeeds exactly when the
   * text parses to a SELECT whose top pattern is a Slice, Project or
   * Distinct, and then yields the parsed query with its top Slice replaced
   * by one of the requested length and start.
   */
  lemma RewriteTextShape(parse: Parser, text: string, limit: nat, offset: nat)
    ensures RewriteQueryLimitOffset(parse, text, limit, offset).Ok? <==>
              && parse(text).Ok?
              && parse(text).value.Select?
              && (parse(text).value.pattern.Slice? || parse(text).value.pattern.Project?
                  || parse(text).value.pattern.Distinct?)
    ensures RewriteQueryLimitOffset(parse, text, limit, offset).Ok? ==>
              var q, r := parse(text).value, RewriteQueryLimitOffset(parse, text, limit, offset).value;
              && r.Select?
              && r.pattern == Slice(Unsliced(q.pattern), offset, Some(limit))
              && r.dataset == q.dataset && r.baseIri == q.baseIri
  {
    if parse(text).Ok? {
      RewriteShape(parse(text).value, limit, offset);
    }
  }

  /**
   * Rewriting again with another limit and offset gives what rewriting the
   * original would: each page's rewrite only depends on the author's
   * pattern, never on a previous page's slice.
   */
  lemma RewriteSupersedes(q: Query, limit: nat, offset: nat, limit': nat, offset': nat)
    requires RewriteQuery(q, limit, offset).Ok?
    ensures RewriteQuery(RewriteQuery(q, limit, offset).value, limit', offset')
            == RewriteQuery(q, limit', offset')
  {
    var r := RewriteQuery(q, limit, offset).value;
    assert r.pattern.Slice?;
  }

  // ---------------------------------------------------------------------
  // What the rewritten query asks the endpoint for
  // ---------------------------------------------------------------------

  /**
   * Slice(S, start, length) of section 18.5 of SPARQL 1.1: the solutions of
   * S from position `start` on, at most `length` of them.
   */
  function Window<T>(s: seq<T>, start: nat, length: Option<nat>): (w: seq<T>)
    ensures |w| <= |s|
    ensures start >= |s| ==> w == []
    ensures length.Some? ==> |w| <= length.value
  {
    var lo := if start < |s| then start else |s|;
    var hi := if length.None? || lo + length.value > |s| then |s| else lo + length.value;
    s[lo..hi]
  }

  /**
   * The solution sequence of a pattern: a Slice takes its window of the
   * inner pattern's solutions; every other pattern is evaluated by the
   * endpoint (`evaluate`), which the rewrite never inspects.
   */
  function Solutions(p: GraphPattern, evaluate: GraphPattern -> seq<Solution>): seq<Solution>
  {
    if p.Slice? then Window(Solutions(p.inner, evaluate), p.start, p.length) else evaluate(p)
  }

  /**
   * The page a rewritten query asks for is the window at `offset` of length
   * `limit` over the solutions of the author's query without its own
   * LIMIT/OFFSET, whatever the author wrote there.
   */
  lemma RewrittenAsksForWindow(q: Query, limit: nat, offset: nat, evaluate: GraphPattern -> seq<Solution>)
    requires RewriteQuery(q, limit, offset).Ok?
    ensures Solutions(RewriteQuery(q, limit, offset).value.pattern, evaluate)
            == Window(Solutions(Unsliced(q.pattern), evaluate), offset, Some(limit))
  {
  }

  /** Consecutive full windows join into one window over their combined range. */
  lemma {:induction false} WindowsJoin<T>(s: seq<T>, start: nat, n: nat, m: nat)
    requires start + n <= |s|
    ensures Window(s, start, Some(n)) + Window(s, start + n, Some(m)) == Window(s, start, Some(n + m))
  {
    var hi := if start + n + m > |s| then |s| else start + n + m;
    assert s[start..start + n] + s[start + n..hi] == s[start..hi];
  }
}

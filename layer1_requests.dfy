/**
 * Fetching the results of one query (`request_single` and
 * `request_with_pagination` in src/layer1.rs). With a page size, the query
 * text is rewritten with LIMIT = page size and OFFSET = the number of
 * bindings received so far, until a page comes back short. The endpoint,
 * the query parser and serialiser and the JSON parser are parameters.
 */
module Layer1Requests {
  import opened Base
  import opened Rewriter
  import opened SparqlClient

  /** The endpoint: its response to a query text posted to a URL. */
  type Endpoint = (string, string) -> HttpResponse

  /** The collaborators a request needs. */
  datatype Net = Net(
    endpoint: Endpoint,
    parse: Parser,
    serialize: Query -> string,
    parseJson: Bytes -> Option<Json>)

  datatype FetchError =
    | RewriteFailed(rewrite: RewriteError)
    | ClientFailed(client: ClientError)
    | Unfinished   // the request budget ran out before a short page arrived

  /** The page at `offset`: rewrite the original text, serialise, post, save. */
  function FetchPage(net: Net, url: string, text: string, paginate: nat, offset: nat): Result<Page, FetchError>
  {
    match RewriteQueryLimitOffset(net.parse, text, paginate, offset)
    case Err(e) => Err(RewriteFailed(e))
    case Ok(q) =>
      match Fetch(net.endpoint(url, net.serialize(q)), net.parseJson)
      case Err(e) => Err(ClientFailed(e))
      case Ok(p) => Ok(p)
  }

  /** The loop's request at each offset. */
  type Pager = nat -> Result<Page, FetchError>

  /** The requests of the loop for one query text and page size. */
  function PagerOf(net: Net, url: string, text: string, paginate: nat): Pager
  {
    (o: nat) => FetchPage(net, url, text, paginate, o)
  }

  /**
   * The pages the loop collects from `offset` on, with at most `fuel` more
   * requests: stop after the first page with fewer than `paginate`
   * bindings, otherwise advance the offset by the page's count.
   */
  function PagesFrom(fetch: Pager, paginate: nat, offset: nat, fuel: nat): Result<seq<Page>, FetchError>
    decreases fuel
  {
    if fuel == 0 then Err(Unfinished)
    else
      match fetch(offset)
      case Err(e) => Err(e)
      case Ok(p) =>
        if p.count < paginate then Ok([p])
        else
          match PagesFrom(fetch, paginate, offset + p.count, fuel - 1)
          case Err(e) => Err(e)
          case Ok(ps) => Ok([p] + ps)
  }

  /** `done` pages already collected in front of what the rest of the loop yields. */
  function Prepend(done: seq<Page>, rest: Result<seq<Page>, FetchError>): Result<seq<Page>, FetchError>
  {
    match rest
    case Err(e) => Err(e)
    case Ok(ps) => Ok(done + ps)
  }

  lemma PrependAppend(a: seq<Page>, b: seq<Page>, rest: Result<seq<Page>, FetchError>)
    ensures Prepend(a, Prepend(b, rest)) == Prepend(a + b, rest)
  {
    if rest.Ok? {
      assert a + (b + rest.value) == (a + b) + rest.value;
    }
  }

  /** One request of the loop, once its page has been received. */
  lemma PagesFromStep(fetch: Pager, paginate: nat, offset: nat, fuel: nat, page: Page)
    requires fuel > 0 && fetch(offset) == Ok(page)
    ensures PagesFrom(fetch, paginate, offset, fuel)
            == if page.count < paginate then Ok([page])
               else Prepend([page], PagesFrom(fetch, paginate, offset + page.count, fuel - 1))
  {
  }

  /**
   * One turn of the pagination loop: rewrite the original text for this
   * offset, serialise it, and save the endpoint's answer in a fresh file.
   */
  method RequestPage(net: Net, url: string, text: string, paginate: nat, offset: nat)
    returns (r: Result<(ScratchFile, nat), FetchError>)
    ensures var spec := FetchPage(net, url, text, paginate, offset);
            && (r.Ok? <==> spec.Ok?)
            && (r.Err? ==> r.error == spec.error)
            && (r.Ok? ==> spec.value == Page(r.value.0.contents, r.value.1))
    ensures r.Ok? ==> fresh(r.value.0)
  {
    var rewritten := RewriteQueryLimitOffset(net.parse, text, paginate, offset);
    if rewritten.Err? {
      return Err(RewriteFailed(rewritten.error));
    }
    var file := new ScratchFile();
    var n := SaveSparqlResultToFile(net.endpoint(url, net.serialize(rewritten.value)), net.parseJson, file);
    if n.Err? {
      return Err(ClientFailed(n.error));
    }
    r := Ok((file, n.value));
  }

  /** The files hold the pages' bodies, one file per page, in order. */
  predicate Saved(files: seq<ScratchFile>, pages: seq<Page>)
    reads files
  {
    |files| == |pages| && forall i :: 0 <= i < |files| ==> files[i].contents == pages[i].body
  }

  lemma SavedSnoc(files: seq<ScratchFile>, pages: seq<Page>, file: ScratchFile, page: Page)
    requires Saved(files, pages) && file.contents == page.body
    ensures Saved(files + [file], pages + [page])
  {
  }

  /**
   * One turn of the pagination loop against the pages still to come: a
   * failure is the outcome of the whole loop, a short page ends it, a full
   * page leaves the rest to the next offset.
   */
  /** `fetch` answers every offset as the loop's request for this query text and page size does. */
  ghost predicate Requests(fetch: Pager, net: Net, url: string, text: string, paginate: nat)
  {
    forall o: nat {:trigger FetchPage(net, url, text, paginate, o)} :: fetch(o) == FetchPage(net, url, text, paginate, o)
  }

  method PageStep(net: Net, url: string, text: string, paginate: nat, offset: nat, left: nat,
                  ghost fetch: Pager, files: seq<ScratchFile>, ghost got: seq<Page>,
                  ghost spec: Result<seq<Page>, FetchError>)
    returns (r: Result<(ScratchFile, nat), FetchError>, ghost got': seq<Page>)
    requires Requests(fetch, net, url, text, paginate)
    requires left > 0 && Prepend(got, PagesFrom(fetch, paginate, offset, left)) == spec
    requires Saved(files, got)
    ensures r.Err? ==> spec == Err(r.error)
    ensures r.Ok? ==> Saved(files + [r.value.0], got')
    ensures r.Ok? && r.value.1 < paginate ==> spec == Ok(got')
    ensures r.Ok? && r.value.1 >= paginate ==>
              Prepend(got', PagesFrom(fetch, paginate, offset + r.value.1, left - 1)) == spec
  {
    r := RequestPage(net, url, text, paginate, offset);
    got' := got;
    if r.Ok? {
      var page := Page(r.value.0.contents, r.value.1);
      assert fetch(offset) == Ok(page);
      PagesFromStep(fetch, paginate, offset, left, page);
      PrependAppend(got, [page], PagesFrom(fetch, paginate, offset + r.value.1, left - 1));
      SavedSnoc(files, got, r.value.0, page);
      got' := got + [page];
    }
  }

  /**
   * The loop of `request_with_pagination` against a request function
   * `fetch`: it ends with the outcome `PagesFrom` gives.
   */
  method CollectPages(net: Net, url: string, text: string, paginate: nat, fuel: nat, ghost fetch: Pager)
    returns (r: Result<seq<ScratchFile>, FetchError>)
    requires Requests(fetch, net, url, text, paginate)
    ensures var spec := PagesFrom(fetch, paginate, 0, fuel);
            && (r.Err? ==> spec == Err(r.error))
            && (r.Ok? ==> spec.Ok? && Saved(r.value, spec.value))
  {
    var files: seq<ScratchFile> := [];
    ghost var got: seq<Page> := [];
    var offset: nat := 0;
    var left: nat := fuel;
    ghost var spec := PagesFrom(fetch, paginate, 0, fuel);
    if spec.Ok? {
      assert got + spec.value == spec.value;
    }
    while true
      invariant Prepend(got, PagesFrom(fetch, paginate, offset, left)) == spec
      invariant Saved(files, got)
      decreases left
    {
      if left == 0 {
        return Err(Unfinished);
      }
      var step;
      step, got := PageStep(net, url, text, paginate, offset, left, fetch, files, got, spec);
      if step.Err? {
        return Err(step.error);
      }
      var (file, n) := step.value;
      files := files + [file];
      if n < paginate {
        return Ok(files);
      }
      offset := offset + n;
      left := left - 1;
    }
  }

  /**
   * `request_with_pagination`: one file per request, in request order,
   * each holding that page's body; any rewrite or fetch error aborts.
   * `fuel` bounds the number of requests.
   */
  method RequestWithPagination(net: Net, url: string, text: string, paginate: nat, fuel: nat)
    returns (r: Result<seq<ScratchFile>, FetchError>)
    ensures var spec := PagesFrom(PagerOf(net, url, text, paginate), paginate, 0, fuel);
            && (r.Err? ==> spec == Err(r.error))
            && (r.Ok? ==> spec.Ok? && Saved(r.value, spec.value))
  {
    r := CollectPages(net, url, text, paginate, fuel, PagerOf(net, url, text, paginate));
  }

  /** `request_single`: exactly one fetch, of the query text as written, into one fresh file. */
  method RequestSingle(net: Net, url: string, text: string) returns (r: Result<seq<ScratchFile>, FetchError>)
    ensures var spec := Fetch(net.endpoint(url, text), net.parseJson);
            && (r.Ok? <==> spec.Ok?)
            && (r.Err? ==> r.error == ClientFailed(spec.error))
            && (r.Ok? ==> |r.value| == 1 && r.value[0].contents == spec.value.body && fresh(r.value[0]))
  {
    var file := new ScratchFile();
    var n := SaveSparqlResultToFile(net.endpoint(url, text), net.parseJson, file);
    if n.Err? {
      return Err(ClientFailed(n.error));
    }
    r := Ok([file]);
  }

  // ---------------------------------------------------------------------
  // Properties of the pagination loop
  // ---------------------------------------------------------------------

  /** The number of bindings in the pages. */
  function Total(ps: seq<Page>): nat
  {
    if ps == [] then 0 else ps[0].count + Total(ps[1..])
  }

  /**
   * The loop ends right after its first short page: every page before the
   * last is full, the last has fewer than `paginate` bindings.
   */
  lemma {:induction false} PagesStopAtFirstShort(fetch: Pager, paginate: nat, offset: nat, fuel: nat)
    requires PagesFrom(fetch, paginate, offset, fuel).Ok?
    ensures var ps := PagesFrom(fetch, paginate, offset, fuel).value;
            && ps != []
            && ps[|ps| - 1].count < paginate
            && forall i :: 0 <= i < |ps| - 1 ==> ps[i].count >= paginate
    ensures |PagesFrom(fetch, paginate, offset, fuel).value| <= fuel
    decreases fuel
  {
    var p := fetch(offset).value;
    if p.count >= paginate {
      PagesStopAtFirstShort(fetch, paginate, offset + p.count, fuel - 1);
      var rest := PagesFrom(fetch, paginate, offset + p.count, fuel - 1).value;
      assert PagesFrom(fetch, paginate, offset, fuel).value == [p] + rest;
    }
  }

  /**
   * Page i is the answer to the request at offset = the starting offset
   * plus the number of bindings on pages 0..i-1.
   */
  lemma {:induction false} PageOffsets(fetch: Pager, paginate: nat, offset: nat, fuel: nat, i: nat)
    requires PagesFrom(fetch, paginate, offset, fuel).Ok?
    requires i < |PagesFrom(fetch, paginate, offset, fuel).value|
    ensures var ps := PagesFrom(fetch, paginate, offset, fuel).value;
            fetch(offset + Total(ps[..i])) == Ok(ps[i])
    decreases fuel
  {
    var ps := PagesFrom(fetch, paginate, offset, fuel).value;
    var p := fetch(offset).value;
    if i == 0 {
      assert ps[..0] == [];
    } else {
      var rest := PagesFrom(fetch, paginate, offset + p.count, fuel - 1).value;
      assert ps == [p] + rest;
      PageOffsets(fetch, paginate, offset + p.count, fuel - 1, i - 1);
      assert ps[..i][1..] == rest[..i - 1];
    }
  }

  /**
   * With page size 0 no page is ever short (`count < 0` cannot hold): the
   * loop never ends on its own and only an error or the budget stops it.
   */
  lemma {:induction false} ZeroPageSizeNeverFinishes(fetch: Pager, offset: nat, fuel: nat)
    ensures PagesFrom(fetch, 0, offset, fuel).Err?
    decreases fuel
  {
    if fuel > 0 {
      match fetch(offset)
      case Err(_) =>
      case Ok(p) => ZeroPageSizeNeverFinishes(fetch, offset + p.count, fuel - 1);
    }
  }

  /** Whether a query can be rewritten does not depend on the limit or offset asked for. */
  lemma RewriteOutcomeIgnoresOffset(parse: Parser, text: string, limit: nat, o1: nat, o2: nat)
    ensures RewriteQueryLimitOffset(parse, text, limit, o1).Err?
            <==> RewriteQueryLimitOffset(parse, text, limit, o2).Err?
    ensures RewriteQueryLimitOffset(parse, text, limit, o1).Err?
            ==> RewriteQueryLimitOffset(parse, text, limit, o1) == RewriteQueryLimitOffset(parse, text, limit, o2)
  {
    if parse(text).Ok? {
      RewriteShape(parse(text).value, limit, o1);
      RewriteShape(parse(text).value, limit, o2);
    }
  }

  /**
   * A query the rewrite rejects fails on the very first request, before
   * anything is fetched; one it accepts is never rejected later.
   */
  lemma {:induction false} RewriteFailsFirstOrNever(net: Net, url: string, text: string, paginate: nat, offset: nat, fuel: nat)
    requires PagesFrom(PagerOf(net, url, text, paginate), paginate, offset, fuel).Err?
    requires PagesFrom(PagerOf(net, url, text, paginate), paginate, offset, fuel).error.RewriteFailed?
    ensures RewriteQueryLimitOffset(net.parse, text, paginate, offset)
            == Err(PagesFrom(PagerOf(net, url, text, paginate), paginate, offset, fuel).error.rewrite)
    decreases fuel
  {
    var fetch := PagerOf(net, url, text, paginate);
    var first := FetchPage(net, url, text, paginate, offset);
    assert fetch(offset) == first;
    if first.Ok? {
      var next := offset + first.value.count;
      RewriteFailsFirstOrNever(net, url, text, paginate, next, fuel - 1);
      RewriteOutcomeIgnoresOffset(net.parse, text, paginate, offset, next);
      assert false;
    }
  }

  // ---------------------------------------------------------------------
  // Against an endpoint that answers truthfully
  // ---------------------------------------------------------------------

  /**
   * The endpoint answers every page query the loop can send for `q` with
   * as many bindings as that query has solutions under `evaluate`.
   */
  ghost predicate Truthful(net: Net, url: string, q: Query, paginate: nat, evaluate: GraphPattern -> seq<Solution>)
  {
    forall o: nat ::
      RewriteQuery(q, paginate, o).Ok? ==>
        var f := Fetch(net.endpoint(url, net.serialize(RewriteQuery(q, paginate, o).value)), net.parseJson);
        f.Ok? && f.value.count == |Solutions(RewriteQuery(q, paginate, o).value.pattern, evaluate)|
  }

  /** The solutions of `all` that the pages asked for, page after page. */
  function Retrieved(all: seq<Solution>, ps: seq<Page>, paginate: nat, offset: nat): seq<Solution>
  {
    if ps == [] then []
    else Window(all, offset, Some(paginate)) + Retrieved(all, ps[1..], paginate, offset + ps[0].count)
  }

  /** One page from a truthful endpoint: its count is the size of the window it asked for. */
  lemma TruthfulPage(net: Net, url: string, text: string, q: Query, paginate: nat,
                     evaluate: GraphPattern -> seq<Solution>, offset: nat)
    requires net.parse(text) == Ok(q) && RewriteQuery(q, paginate, 0).Ok?
    requires Truthful(net, url, q, paginate, evaluate)
    ensures var p := FetchPage(net, url, text, paginate, offset);
            p.Ok? && p.value.count == |Window(Solutions(Unsliced(q.pattern), evaluate), offset, Some(paginate))|
  {
    RewriteShape(q, paginate, 0);
    RewriteShape(q, paginate, offset);
    var rq := RewriteQuery(q, paginate, offset);
    assert rq.Ok?;
    assert RewriteQueryLimitOffset(net.parse, text, paginate, offset) == rq;
    var f := Fetch(net.endpoint(url, net.serialize(rq.value)), net.parseJson);
    assert f.Ok? && f.value.count == |Solutions(rq.value.pattern, evaluate)|;
    RewrittenAsksForWindow(q, paginate, offset, evaluate);
  }

  /** A short window reaches the end; a full one is followed by the rest. */
  lemma WindowAtOffset(all: seq<Solution>, offset: nat, paginate: nat)
    requires offset <= |all|
    ensures var w := Window(all, offset, Some(paginate));
            && (|w| < paginate ==> w == all[offset..])
            && (|w| == paginate ==> offset + paginate <= |all| && all[offset..] == w + all[offset + paginate..])
  {
  }

  /** Retrieval and counts of a first page followed by more pages. */
  lemma RetrievedCons(all: seq<Solution>, p: Page, rest: seq<Page>, paginate: nat, offset: nat)
    ensures Total([p] + rest) == p.count + Total(rest)
    ensures Retrieved(all, [p] + rest, paginate, offset)
            == Window(all, offset, Some(paginate)) + Retrieved(all, rest, paginate, offset + p.count)
  {
    assert ([p] + rest)[0] == p;
    assert ([p] + rest)[1..] == rest;
  }

  /** How many bindings `fuel` full pages hold: `fuel * paginate`, counted page by page. */
  function Capacity(fuel: nat, paginate: nat): (c: nat)
    ensures c == fuel * paginate
  {
    if fuel == 0 then 0 else paginate + Capacity(fuel - 1, paginate)
  }

  /** Every request of the loop is answered with the size of the window it asks for. */
  ghost predicate WindowCounts(fetch: Pager, paginate: nat, all: seq<Solution>)
  {
    forall o: nat :: fetch(o).Ok? && fetch(o).value.count == |Window(all, o, Some(paginate))|
  }

  /** From `offset` on, the loop ends and its pages retrieve the rest of `all`, each solution once. */
  ghost predicate RetrievesRest(fetch: Pager, paginate: nat, all: seq<Solution>, offset: nat, fuel: nat)
    requires offset <= |all|
  {
    var r := PagesFrom(fetch, paginate, offset, fuel);
    r.Ok? && Total(r.value) == |all| - offset && Retrieved(all, r.value, paginate, offset) == all[offset..]
  }

  /** A short page is the last one and holds the rest of the solutions. */
  lemma ShortWindowEnds(fetch: Pager, paginate: nat, all: seq<Solution>, offset: nat, fuel: nat)
    requires fuel > 0 && offset <= |all| && fetch(offset).Ok?
    requires fetch(offset).value.count == |Window(all, offset, Some(paginate))| < paginate
    ensures RetrievesRest(fetch, paginate, all, offset, fuel)
  {
    var p := fetch(offset).value;
    WindowAtOffset(all, offset, paginate);
    PagesFromStep(fetch, paginate, offset, fuel, p);
    RetrievedCons(all, p, [], paginate, offset);
    assert [p] + [] == [p];
  }

  /** A full page is followed by the pages that retrieve what comes after it. */
  lemma FullWindowContinues(fetch: Pager, paginate: nat, all: seq<Solution>, offset: nat, fuel: nat)
    requires fuel > 0 && offset <= |all| && fetch(offset).Ok?
    requires fetch(offset).value.count == |Window(all, offset, Some(paginate))| == paginate
    requires offset + paginate <= |all| && RetrievesRest(fetch, paginate, all, offset + paginate, fuel - 1)
    ensures RetrievesRest(fetch, paginate, all, offset, fuel)
  {
    var p := fetch(offset).value;
    WindowAtOffset(all, offset, paginate);
    PagesFromStep(fetch, paginate, offset, fuel, p);
    var rest := PagesFrom(fetch, paginate, offset + paginate, fuel - 1).value;
    assert PagesFrom(fetch, paginate, offset, fuel) == Ok([p] + rest);
    RetrievedCons(all, p, rest, paginate, offset);
  }

  /**
   * When every request is answered with its window of `all` and the budget
   * covers the rest of `all`, the loop retrieves exactly that rest.
   */
  lemma {:induction false} PagesFromWindows(fetch: Pager, paginate: nat, all: seq<Solution>, offset: nat, fuel: nat)
    requires paginate > 0 && WindowCounts(fetch, paginate, all)
    requires offset <= |all| && Capacity(fuel, paginate) > |all| - offset
    ensures RetrievesRest(fetch, paginate, all, offset, fuel)
    decreases fuel
  {
    var w := Window(all, offset, Some(paginate));
    assert fetch(offset).Ok? && fetch(offset).value.count == |w|;
    assert fuel > 0;
    if |w| < paginate {
      ShortWindowEnds(fetch, paginate, all, offset, fuel);
    } else {
      WindowAtOffset(all, offset, paginate);
      PagesFromWindows(fetch, paginate, all, offset + paginate, fuel - 1);
      FullWindowContinues(fetch, paginate, all, offset, fuel);
    }
  }

  /**
   * Against a truthful endpoint, with a positive page size and enough
   * requests allowed, the loop finishes, receives exactly as many bindings
   * as the author's query has solutions, and its pages ask for consecutive
   * windows that together are all those solutions, in order, each once:
   * whatever LIMIT/OFFSET the author wrote is replaced, not combined.
   */
  lemma TruthfulEndpointGivesAllSolutions(net: Net, url: string, text: string, q: Query, paginate: nat,
                                          evaluate: GraphPattern -> seq<Solution>, fuel: nat)
    requires net.parse(text) == Ok(q) && RewriteQuery(q, paginate, 0).Ok?
    requires paginate > 0 && Truthful(net, url, q, paginate, evaluate)
    requires fuel * paginate > |Solutions(Unsliced(q.pattern), evaluate)|
    ensures var all := Solutions(Unsliced(q.pattern), evaluate);
            var r := PagesFrom(PagerOf(net, url, text, paginate), paginate, 0, fuel);
            r.Ok? && Total(r.value) == |all| && Retrieved(all, r.value, paginate, 0) == all
  {
    var all := Solutions(Unsliced(q.pattern), evaluate);
    var fetch := PagerOf(net, url, text, paginate);
    forall o: nat
      ensures fetch(o).Ok? && fetch(o).value.count == |Window(all, o, Some(paginate))|
    {
      TruthfulPage(net, url, text, q, paginate, evaluate, o);
    }
    assert Capacity(fuel, paginate) > |all|;
    PagesFromWindows(fetch, paginate, all, 0, fuel);
    assert all[0..] == all;
  }
}

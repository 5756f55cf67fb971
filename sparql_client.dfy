/**
 * One request to a SPARQL endpoint (src/sparql_client.rs): the response body
 * is streamed chunk by chunk into a scratch file, which is then parsed as
 * JSON and its bindings counted, following the SPARQL 1.1 Query Results
 * JSON Format (section 3: `head.vars` and `results.bindings`). The HTTP
 * exchange itself is the `HttpResponse` value handed in, and JSON parsing
 * is a parameter.
 */
module SparqlClient {
  import opened Base

  /** A parsed JSON document (object members keyed by name, as serde_json keeps them). */
  datatype Json =
    | JNull
    | JBool(b: bool)
    | JNumber(n: int)
    | JString(s: string)
    | JArray(items: seq<Json>)
    | JObject(members: map<string, Json>)

  /** `Value::get` with a string key: the member of an object, None for anything else. */
  function Get(j: Json, key: string): Option<Json>
  {
    if j.JObject? && key in j.members then Some(j.members[key]) else None
  }

  /**
   * `num_bindings`: the length of `results.bindings`, and 0 when `results`
   * or `bindings` is missing or `bindings` is not an array.
   */
  function NumBindings(result: Json): nat
  {
    match Get(result, "results")
    case None => 0
    case Some(r) =>
      match Get(r, "bindings")
      case None => 0
      case Some(b) => if b.JArray? then |b.items| else 0
  }

  /** A results document of the SPARQL 1.1 JSON format with these variables and bindings. */
  function ResultsDocument(vars: seq<string>, bindings: seq<Json>): Json
  {
    JObject(map[
      "head" := JObject(map["vars" := JArray(seq(|vars|, i requires 0 <= i < |vars| => JString(vars[i])))]),
      "results" := JObject(map["bindings" := JArray(bindings)])])
  }

  /** Counting the bindings of a results document gives the number of bindings it was built from. */
  lemma NumBindingsOfDocument(vars: seq<string>, bindings: seq<Json>)
    ensures NumBindings(ResultsDocument(vars, bindings)) == |bindings|
  {
    var d := ResultsDocument(vars, bindings);
    assert Get(d, "results") == Some(JObject(map["bindings" := JArray(bindings)]));
  }

  /**
   * Every document that does not hold an array at `results.bindings` counts
   * as zero bindings; one that does counts its length.
   */
  lemma NumBindingsShape(result: Json)
    ensures NumBindings(result) > 0 ==>
              result.JObject? && "results" in result.members
              && result.members["results"].JObject?
              && "bindings" in result.members["results"].members
              && result.members["results"].members["bindings"].JArray?
              && NumBindings(result) == |result.members["results"].members["bindings"].items|
    ensures !result.JObject? ==> NumBindings(result) == 0
  {
  }

  // ---------------------------------------------------------------------
  // `save_sparql_result_to_file`
  // ---------------------------------------------------------------------

  /** An item of the response byte stream: some bytes, or a transport error mid-stream. */
  datatype Chunk = Data(bytes: Bytes) | Broken

  /** What the endpoint answered: nothing at all, or a status and a streamed body. */
  datatype HttpResponse = NoResponse | Response(status: nat, chunks: seq<Chunk>)

  datatype ClientError =
    | Transport                 // the request or the body stream failed
    | HttpFailure(body: Bytes)  // a non-success status; the body, which the source decodes as text
    | MalformedPayload          // the saved body is not JSON

  /** Whether the status is in the 2xx range. */
  predicate IsSuccess(status: nat)
  {
    200 <= status <= 299
  }

  /** The whole body: the chunks' bytes in arrival order, or None when the stream broke. */
  function Received(chunks: seq<Chunk>): Option<Bytes>
  {
    if chunks == [] then Some([])
    else
      match Received(chunks[..|chunks| - 1])
      case None => None
      case Some(b) =>
        var last := chunks[|chunks| - 1];
        if last.Data? then Some(b + last.bytes) else None
  }

  /** One fetched page: the bytes saved to the scratch file and its binding count. */
  datatype Page = Page(body: Bytes, count: nat)

  /**
   * What a request yields: the saved body and its binding count, or the
   * error. A non-success status reports the body and saves nothing.
   */
  function Fetch(response: HttpResponse, parseJson: Bytes -> Option<Json>): Result<Page, ClientError>
  {
    match response
    case NoResponse => Err(Transport)
    case Response(status, chunks) =>
      match Received(chunks)
      case None => Err(Transport)
      case Some(body) =>
        if !IsSuccess(status) then Err(HttpFailure(body))
        else
          match parseJson(body)
          case None => Err(MalformedPayload)
          case Some(j) => Ok(Page(body, NumBindings(j)))
  }

  /** A named temporary file that receives one response body. */
  class ScratchFile {
    var contents: Bytes

    constructor ()
      ensures contents == []
    {
      contents := [];
    }

    /** Appends bytes through the buffered writer. */
    method WriteAll(bytes: Bytes)
      modifies this
      ensures contents == old(contents) + bytes
    {
      contents := contents + bytes;
    }
  }

  /**
   * `save_sparql_result_to_file`: on a 2xx status the body chunks are
   * appended to `file` in arrival order, the file is parsed back as JSON and
   * its bindings counted. On any other status the body text is the error and
   * the file is not touched.
   */
  method SaveSparqlResultToFile(response: HttpResponse, parseJson: Bytes -> Option<Json>, file: ScratchFile)
    returns (r: Result<nat, ClientError>)
    modifies file
    ensures r.Ok? <==> Fetch(response, parseJson).Ok?
    ensures r.Ok? ==> r.value == Fetch(response, parseJson).value.count
                      && file.contents == Fetch(response, parseJson).value.body
    ensures r.Err? ==> r.error == Fetch(response, parseJson).error
    ensures (response.NoResponse? || !IsSuccess(response.status)) ==> unchanged(file)
  {
    if response.NoResponse? {
      return Err(Transport);
    }
    var chunks := response.chunks;
    if !IsSuccess(response.status) {
      var body := Received(chunks);
      if body.None? {
        return Err(Transport);
      }
      return Err(HttpFailure(body.value));
    }
    file.contents := [];
    var i := 0;
    while i < |chunks|
      invariant 0 <= i <= |chunks|
      invariant Received(chunks[..i]) == Some(file.contents)
    {
      assert chunks[..i + 1][..i] == chunks[..i];
      match chunks[i]
      case Broken =>
        ReceivedBrokenPrefix(chunks, i + 1);
        return Err(Transport);
      case Data(bytes) =>
        file.WriteAll(bytes);
      i := i + 1;
    }
    assert chunks[..i] == chunks;
    var json := parseJson(file.contents);
    if json.None? {
      return Err(MalformedPayload);
    }
    r := Ok(NumBindings(json.value));
  }

  /** Once the stream has broken, the body as a whole is lost. */
  lemma {:induction false} ReceivedBrokenPrefix(chunks: seq<Chunk>, j: nat)
    requires j <= |chunks|
    requires Received(chunks[..j]).None?
    ensures Received(chunks).None?
    decreases |chunks| - j
  {
    if j < |chunks| {
      var p := chunks[..|chunks| - 1];
      assert p[..j] == chunks[..j];
      ReceivedBrokenPrefix(p, j);
    } else {
      assert chunks[..j] == chunks;
    }
  }

  /** The saved body is the concatenation of the data chunks, in order. */
  lemma {:induction false} ReceivedConcatenates(a: seq<Chunk>, b: seq<Chunk>)
    requires Received(a).Some? && Received(b).Some?
    ensures Received(a + b) == Some(Received(a).value + Received(b).value)
    decreases |b|
  {
    if b == [] {
      assert a + b == a;
      assert Received(b) == Some([]);
      assert Received(a).value + [] == Received(a).value;
    } else {
      var b' := b[..|b| - 1];
      var last := b[|b| - 1];
      assert Received(b').Some? && last.Data?;
      assert (a + b)[..|a + b| - 1] == a + b';
      assert (a + b)[|a + b| - 1] == last;
      ReceivedConcatenates(a, b');
      assert Received(a).value + Received(b').value + last.bytes
          == Received(a).value + (Received(b').value + last.bytes);
    }
  }
}

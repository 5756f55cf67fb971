/**
 * Directive extraction (src/sparql_query_metadata.rs): every line of a query
 * of the form `# key: value` is matched against the regular expression
 * `^#\s*([^:]+)\s*:\s*(.+)`; the keys `endpoint` and `paginate` (compared
 * after lower-casing) set the endpoint URL and the page size, the last
 * occurrence winning. A page size that does not parse as a `usize` aborts at
 * once; a missing endpoint is an error at the end.
 */
module Directives {
  import opened Base

  /** A line as `str::lines` yields it: never contains a line feed. */
  type Line = s: string | LF !in s

  datatype QueryMetadata = QueryMetadata(endpoint: string, paginate: Option<nat>)

  datatype DirectiveError =
    | InvalidPageSize(value: string)   // `value.parse::<usize>()` failed
    | MissingEndpoint                  // no `endpoint` directive anywhere

  /** Largest `usize` on a 64-bit target. */
  const UsizeMax: nat := 0xFFFF_FFFF_FFFF_FFFF

  const EndpointKey: string := "endpoint"
  const PaginateKey: string := "paginate"

  // ---------------------------------------------------------------------
  // Splitting into lines (`str::lines`)
  // ---------------------------------------------------------------------

  /** Position of the first `c` in `t`, or `|t|` when there is none. */
  function IndexOf(t: string, c: char): (i: nat)
    ensures i <= |t|
    ensures i < |t| ==> t[i] == c
    ensures forall j :: 0 <= j < i ==> t[j] != c
  {
    if t == [] then 0 else if t[0] == c then 0 else 1 + IndexOf(t[1..], c)
  }

  /** A line ended by `\r\n` loses its carriage return. */
  function StripCr(l: Line): Line
  {
    if |l| > 0 && l[|l| - 1] == CR then l[..|l| - 1] else l
  }

  /**
   * `str::lines`: split at each line feed, drop one carriage return right
   * before it, and produce no empty last line after a final line feed.
   * A carriage return at the very end of the text is kept.
   */
  function Lines(t: string): seq<Line>
    decreases |t|
  {
    if t == [] then []
    else
      var i := IndexOf(t, LF);
      if i == |t| then [t]
      else [StripCr(t[..i])] + Lines(t[i + 1..])
  }

  // ---------------------------------------------------------------------
  // The directive pattern `^#\s*([^:]+)\s*:\s*(.+)`
  // ---------------------------------------------------------------------

  /** `\s` of the regex engine: the Unicode White_Space characters. */
  predicate IsSpace(c: char)
  {
    c == ' ' || ('\t' <= c <= '\r') || c == '\U{0085}' || c == '\U{00A0}' || c == '\U{1680}'
    || ('\U{2000}' <= c <= '\U{200A}') || c == '\U{2028}' || c == '\U{2029}'
    || c == '\U{202F}' || c == '\U{205F}' || c == '\U{3000}'
  }

  /** Length of the longest all-whitespace prefix of `s`. */
  function LeadingSpaces(s: string): (n: nat)
    ensures n <= |s|
    ensures forall j :: 0 <= j < n ==> IsSpace(s[j])
    ensures n < |s| ==> !IsSpace(s[n])
  {
    if s == [] || !IsSpace(s[0]) then 0 else 1 + LeadingSpaces(s[1..])
  }

  predicate AllSpace(s: string)
  {
    forall j :: 0 <= j < |s| ==> IsSpace(s[j])
  }

  /**
   * The two capture groups of the directive pattern on one line, or None
   * when the line does not match. The key group `[^:]+` runs greedily to the
   * first colon, so whitespace before the colon stays in the key; when only
   * whitespace precedes the colon the engine backtracks and the key is its
   * last whitespace character. Likewise the value is everything after the
   * whitespace that follows the colon, or the last character when only
   * whitespace follows.
   */
  function MatchDirective(line: Line): (r: Option<(string, string)>)
    ensures r.Some? ==> |r.value.0| > 0 && ':' !in r.value.0 && |r.value.1| > 0
  {
    if |line| == 0 || line[0] != '#' then None else MatchAfterHash(line[1..])
  }

  /** The part of the pattern after `^#`. */
  function MatchAfterHash(rest: string): (r: Option<(string, string)>)
    ensures r.Some? ==> |r.value.0| > 0 && ':' !in r.value.0 && |r.value.1| > 0
    ensures r.Some? <==> 1 <= IndexOf(rest, ':') < |rest| - 1
  {
    var c := IndexOf(rest, ':');
    if c == 0 || c + 1 >= |rest| then None
    else
      var w := LeadingSpaces(rest);
      var key := if w < c then rest[w..c] else rest[c - 1..c];
      var after := rest[c + 1..];
      var v := LeadingSpaces(after);
      var value := if v < |after| then after[v..] else after[|after| - 1..];
      Some((key, value))
  }

  function LowerChar(c: char): char
  {
    if 'A' <= c <= 'Z' then (c as int + 32) as char else c
  }

  /** `to_lowercase` on the ASCII letters. */
  function Lower(s: string): (r: string)
    ensures |r| == |s|
  {
    seq(|s|, i requires 0 <= i < |s| => LowerChar(s[i]))
  }

  /** What one line means to the extraction. */
  datatype Directive =
    | Endpoint(url: string)     // key `endpoint`, any letter case
    | Paginate(size: string)    // key `paginate`, any letter case, value not yet parsed
    | Unrecognised              // not a directive, or some other key

  function Classify(line: Line): Directive
  {
    match MatchDirective(line)
    case None => Unrecognised
    case Some(kv) =>
      var key := Lower(kv.0);
      if key == EndpointKey then Endpoint(kv.1)
      else if key == PaginateKey then Paginate(kv.1)
      else Unrecognised
  }

  function ClassifyAll(ls: seq<Line>): (ds: seq<Directive>)
    ensures |ds| == |ls|
    ensures forall i :: 0 <= i < |ls| ==> ds[i] == Classify(ls[i])
  {
    seq(|ls|, i requires 0 <= i < |ls| => Classify(ls[i]))
  }

  /** Each line is classified on its own: classifying a concatenation concatenates the classifications. */
  lemma ClassifyAllAppend(a: seq<Line>, b: seq<Line>)
    ensures ClassifyAll(a + b) == ClassifyAll(a) + ClassifyAll(b)
  {
    var l, r := ClassifyAll(a + b), ClassifyAll(a) + ClassifyAll(b);
    assert |l| == |r|;
    forall i | 0 <= i < |l| ensures l[i] == r[i] {
      if i < |a| { assert (a + b)[i] == a[i]; } else { assert (a + b)[i] == b[i - |a|]; }
    }
  }

  // ---------------------------------------------------------------------
  // `str::parse::<usize>`
  // ---------------------------------------------------------------------

  predicate IsDigit(c: char)
  {
    '0' <= c <= '9'
  }

  predicate AllDigits(s: string)
  {
    forall j :: 0 <= j < |s| ==> IsDigit(s[j])
  }

  /** The number written by a string of decimal digits. */
  function DigitsValue(s: string): nat
    requires AllDigits(s)
  {
    if s == [] then 0
    else 10 * DigitsValue(s[..|s| - 1]) + (s[|s| - 1] as int - '0' as int)
  }

  /**
   * `usize::from_str`: an optional `+`, then at least one ASCII digit and
   * nothing else, with a value that fits in 64 bits. No whitespace is
   * skipped and `-` is always rejected; `0` is accepted.
   */
  function ParseUsize(s: string): Option<nat>
  {
    if s == [] then None
    else
      var digits := if s[0] == '+' then s[1..] else s;
      if digits == [] || !AllDigits(digits) then None
      else if DigitsValue(digits) > UsizeMax then None
      else Some(DigitsValue(digits))
  }

  /** The decimal spelling of `n`, without sign or leading zeros. */
  function Decimal(n: nat): (s: string)
    ensures |s| > 0 && AllDigits(s)
  {
    if n < 10 then [('0' as int + n) as char]
    else Decimal(n / 10) + [('0' as int + n % 10) as char]
  }

  lemma {:induction false} DecimalValue(n: nat)
    ensures DigitsValue(Decimal(n)) == n
  {
    var s := Decimal(n);
    if n >= 10 {
      DecimalValue(n / 10);
      assert s[..|s| - 1] == Decimal(n / 10);
    }
  }

  /** Every 64-bit size, written in decimal with or without `+`, parses back to itself. */
  lemma ParseDecimal(n: nat)
    requires n <= UsizeMax
    ensures ParseUsize(Decimal(n)) == Some(n)
    ensures ParseUsize("+" + Decimal(n)) == Some(n)
  {
    DecimalValue(n);
    assert ("+" + Decimal(n))[1..] == Decimal(n);
  }

  // ---------------------------------------------------------------------
  // What the scan over all lines yields
  // ---------------------------------------------------------------------

  /** The URL of the last `endpoint` directive, if any. */
  function LastEndpoint(ds: seq<Directive>): Option<string>
  {
    if ds == [] then None
    else if ds[|ds| - 1].Endpoint? then Some(ds[|ds| - 1].url)
    else LastEndpoint(ds[..|ds| - 1])
  }

  /** The value of the last `paginate` directive, if any. */
  function LastPaginate(ds: seq<Directive>): Option<string>
  {
    if ds == [] then None
    else if ds[|ds| - 1].Paginate? then Some(ds[|ds| - 1].size)
    else LastPaginate(ds[..|ds| - 1])
  }

  predicate BadPaginate(d: Directive)
  {
    d.Paginate? && ParseUsize(d.size).None?
  }

  /** The value of the first `paginate` directive that does not parse, if any. */
  function FirstBadPaginate(ds: seq<Directive>): Option<string>
  {
    if ds == [] then None
    else
      var f := FirstBadPaginate(ds[..|ds| - 1]);
      if f.Some? then f
      else if BadPaginate(ds[|ds| - 1]) then Some(ds[|ds| - 1].size)
      else None
  }

  /** The page size the last `paginate` directive sets. */
  function PageSize(ds: seq<Directive>): Option<nat>
  {
    match LastPaginate(ds)
    case None => None
    case Some(p) => ParseUsize(p)
  }

  /**
   * The outcome of extracting directives from a query's lines: the first bad
   * page size is an error; otherwise the last endpoint, if there is one,
   * and the last page size.
   */
  function MetadataOf(ds: seq<Directive>): Result<QueryMetadata, DirectiveError>
  {
    match FirstBadPaginate(ds)
    case Some(v) => Err(InvalidPageSize(v))
    case None =>
      match LastEndpoint(ds)
      case None => Err(MissingEndpoint)
      case Some(e) => Ok(QueryMetadata(e, PageSize(ds)))
  }

  lemma {:induction false} FirstBadPrefix(ds: seq<Directive>, j: nat)
    requires j <= |ds|
    requires FirstBadPaginate(ds[..j]).Some?
    ensures FirstBadPaginate(ds) == FirstBadPaginate(ds[..j])
    decreases |ds| - j
  {
    if j < |ds| {
      var p := ds[..|ds| - 1];
      assert p[..j] == ds[..j];
      FirstBadPrefix(p, j);
    } else {
      assert ds[..j] == ds;
    }
  }

  /**
   * `extract_query_metadata`: a forward scan over the lines that overwrites
   * `endpoint` and `paginate` as directives appear and returns at the first
   * page size that does not parse.
   */
  method ExtractQueryMetadata(query: string) returns (r: Result<QueryMetadata, DirectiveError>)
    ensures r == MetadataOf(ClassifyAll(Lines(query)))
  {
    var lines := Lines(query);
    ghost var ds := ClassifyAll(lines);
    var endpoint: Option<string> := None;
    var paginate: Option<nat> := None;
    for i := 0 to |lines|
      invariant endpoint == LastEndpoint(ds[..i])
      invariant paginate == PageSize(ds[..i])
      invariant FirstBadPaginate(ds[..i]) == None
    {
      assert ds[..i + 1][..i] == ds[..i];
      assert ds[..i + 1][i] == ds[i] == Classify(lines[i]);
      var m := MatchDirective(lines[i]);
      if m.Some? {
        var key := Lower(m.value.0);
        var value := m.value.1;
        if key == EndpointKey {
          endpoint := Some(value);
        } else if key == PaginateKey {
          var n := ParseUsize(value);
          if n.None? {
            FirstBadPrefix(ds, i + 1);
            return Err(InvalidPageSize(value));
          }
          paginate := n;
        }
      }
    }
    assert ds[..|lines|] == ds;
    match endpoint {
      case None => r := Err(MissingEndpoint);
      case Some(e) => r := Ok(QueryMetadata(e, paginate));
    }
  }

  // ---------------------------------------------------------------------
  // Properties of the extraction
  // ---------------------------------------------------------------------

  lemma {:induction false} IndexOfAfter(a: string, b: string, c: char)
    requires c !in a
    ensures IndexOf(a + b, c) == |a| + IndexOf(b, c)
  {
    if a != [] {
      assert (a + b)[1..] == a[1..] + b;
      assert a[0] != c;
      IndexOfAfter(a[1..], b, c);
    } else {
      assert a + b == b;
    }
  }

  lemma {:induction false} LeadingSpacesOf(a: string, b: string)
    requires AllSpace(a)
    requires b != [] && !IsSpace(b[0])
    ensures LeadingSpaces(a + b) == |a|
  {
    if a != [] {
      assert (a + b)[1..] == a[1..] + b;
      assert IsSpace(a[0]);
      LeadingSpacesOf(a[1..], b);
    } else {
      assert a + b == b;
    }
  }

  lemma MatchAfterHashAt(rest: string, c: nat, w: nat, v: nat, key: string, value: string)
    requires IndexOf(rest, ':') == c && 1 <= c && c + 1 < |rest|
    requires LeadingSpaces(rest) == w < c && rest[w..c] == key
    requires LeadingSpaces(rest[c + 1..]) == v < |rest| - c - 1 && rest[c + 1..][v..] == value
    ensures MatchAfterHash(rest) == Some((key, value))
  {
  }

  /** Where the parts of `pre + key + ":" + mid + value` sit. */
  lemma DirectiveParts(pre: string, key: string, mid: string, value: string)
    ensures var rest, c := pre + key + ":" + mid + value, |pre| + |key|;
            && rest == pre + (key + (":" + mid + value))
            && rest[|pre|..c] == key
            && rest[c + 1..] == mid + value
  {
    var rest, c := pre + key + ":" + mid + value, |pre| + |key|;
    assert rest == pre + (key + (":" + mid + value));
    assert rest[|pre|..c] == key;
    assert rest[c + 1..] == mid + value;
  }

  lemma GroupsAfterSpaces(pre: string, key: string, mid: string, value: string)
    requires AllSpace(pre) && AllSpace(mid)
    requires |key| > 0 && !IsSpace(key[0])
    requires |value| > 0 && !IsSpace(value[0])
    ensures var rest, c := pre + key + ":" + mid + value, |pre| + |key|;
            && |rest| == c + 1 + |mid| + |value|
            && LeadingSpaces(rest) == |pre| && rest[|pre|..c] == key
            && LeadingSpaces(rest[c + 1..]) == |mid| && rest[c + 1..][|mid|..] == value
  {
    DirectiveParts(pre, key, mid, value);
    LeadingSpacesOf(pre, key + (":" + mid + value));
    LeadingSpacesOf(mid, value);
    assert (mid + value)[|mid|..] == value;
  }

  lemma ColonAfterKey(pre: string, key: string, mid: string, value: string)
    requires AllSpace(pre) && ':' !in key
    ensures IndexOf(pre + key + ":" + mid + value, ':') == |pre| + |key|
  {
    var pk := pre + key;
    assert ':' !in pk by {
      forall j | 0 <= j < |pk| ensures pk[j] != ':' {
        if j < |pre| { assert IsSpace(pre[j]); } else { assert pk[j] == key[j - |pre|]; }
      }
    }
    var tail := ":" + mid + value;
    assert pre + key + ":" + mid + value == pk + tail;
    assert tail[0] == ':';
    IndexOfAfter(pk, tail, ':');
  }

  lemma AfterHashRoundTrip(pre: string, key: string, mid: string, value: string)
    requires AllSpace(pre) && AllSpace(mid)
    requires |key| > 0 && ':' !in key && !IsSpace(key[0])
    requires |value| > 0 && !IsSpace(value[0])
    ensures MatchAfterHash(pre + key + ":" + mid + value) == Some((key, value))
  {
    var rest := pre + key + ":" + mid + value;
    ColonAfterKey(pre, key, mid, value);
    GroupsAfterSpaces(pre, key, mid, value);
    MatchAfterHashAt(rest, |pre| + |key|, |pre|, |mid|, key, value);
  }

  /**
   * A line `#<ws>key:<ws>value` is read as exactly (key, value): the key is
   * everything up to the first colon, including whitespace before the
   * colon, and the value keeps its own colons (as in a URL).
   */
  lemma DirectiveLineRoundTrip(pre: string, key: string, mid: string, value: string)
    requires AllSpace(pre) && AllSpace(mid)
    requires |key| > 0 && ':' !in key && !IsSpace(key[0])
    requires |value| > 0 && !IsSpace(value[0])
    requires LF !in pre && LF !in key && LF !in mid && LF !in value
    ensures LF !in "#" + pre + key + ":" + mid + value
    ensures MatchDirective("#" + pre + key + ":" + mid + value) == Some((key, value))
  {
    var line := "#" + pre + key + ":" + mid + value;
    assert line == "#" + (pre + key + ":" + mid + value);
    assert LF !in line;
    AfterHashRoundTrip(pre, key, mid, value);
    assert line[1..] == pre + key + ":" + mid + value;
  }

  lemma LowerKeys()
    ensures Lower("endpoint") == EndpointKey
    ensures Lower("paginate") == PaginateKey
    ensures Lower("Endpoint") == EndpointKey
    ensures Lower("PAGINATE") == PaginateKey
  {
  }

  /** How a well-formed directive line is classified: by its lower-cased key. */
  lemma ClassifyDirectiveLine(pre: string, key: string, mid: string, value: string)
    requires AllSpace(pre) && AllSpace(mid)
    requires |key| > 0 && ':' !in key && !IsSpace(key[0])
    requires |value| > 0 && !IsSpace(value[0])
    requires LF !in pre && LF !in key && LF !in mid && LF !in value
    ensures LF !in "#" + pre + key + ":" + mid + value
    ensures Classify("#" + pre + key + ":" + mid + value)
            == if Lower(key) == EndpointKey then Endpoint(value)
               else if Lower(key) == PaginateKey then Paginate(value)
               else Unrecognised
  {
    DirectiveLineRoundTrip(pre, key, mid, value);
  }

  /**
   * A key written with whitespace before the colon keeps that whitespace,
   * so it is neither `endpoint` nor `paginate` and the line is ignored.
   */
  lemma SpaceBeforeColonKeepsKey(pre: string, key: string, mid: string, value: string)
    requires AllSpace(pre) && AllSpace(mid)
    requires |key| > 0 && ':' !in key && !IsSpace(key[0]) && IsSpace(key[|key| - 1])
    requires |value| > 0 && !IsSpace(value[0])
    requires LF !in pre && LF !in key && LF !in mid && LF !in value
    ensures LF !in "#" + pre + key + ":" + mid + value
    ensures Classify("#" + pre + key + ":" + mid + value) == Unrecognised
  {
    ClassifyDirectiveLine(pre, key, mid, value);
    var k := Lower(key);
    assert k[|key| - 1] == LowerChar(key[|key| - 1]) == key[|key| - 1];
    if |k| == |EndpointKey| {
      assert EndpointKey[7] == 't' && PaginateKey[7] == 'e';
      assert !IsSpace('t') && !IsSpace('e');
    }
  }

  lemma {:induction false} LastEndpointSkips(a: seq<Directive>, d: Directive, b: seq<Directive>)
    requires !d.Endpoint?
    ensures LastEndpoint(a + [d] + b) == LastEndpoint(a + b)
    decreases |b|
  {
    var s, t := a + [d] + b, a + b;
    if b == [] {
      assert s[..|s| - 1] == a;
      assert t == a;
    } else {
      var b' := b[..|b| - 1];
      assert s[..|s| - 1] == a + [d] + b';
      assert t[..|t| - 1] == a + b';
      assert s[|s| - 1] == t[|t| - 1];
      LastEndpointSkips(a, d, b');
    }
  }

  lemma {:induction false} LastPaginateSkips(a: seq<Directive>, d: Directive, b: seq<Directive>)
    requires !d.Paginate?
    ensures LastPaginate(a + [d] + b) == LastPaginate(a + b)
    decreases |b|
  {
    var s, t := a + [d] + b, a + b;
    if b == [] {
      assert s[..|s| - 1] == a;
      assert t == a;
    } else {
      var b' := b[..|b| - 1];
      assert s[..|s| - 1] == a + [d] + b';
      assert t[..|t| - 1] == a + b';
      assert s[|s| - 1] == t[|t| - 1];
      LastPaginateSkips(a, d, b');
    }
  }

  /** Appending the same directive to two lists with the same first bad page size keeps them equal. */
  lemma FirstBadSnoc(x: seq<Directive>, y: seq<Directive>, e: Directive)
    requires FirstBadPaginate(x) == FirstBadPaginate(y)
    ensures FirstBadPaginate(x + [e]) == FirstBadPaginate(y + [e])
  {
    assert (x + [e])[..|x|] == x && (x + [e])[|x|] == e;
    assert (y + [e])[..|y|] == y && (y + [e])[|y|] == e;
  }

  lemma {:induction false} FirstBadSkips(a: seq<Directive>, d: Directive, b: seq<Directive>)
    requires !BadPaginate(d)
    ensures FirstBadPaginate(a + [d] + b) == FirstBadPaginate(a + b)
    decreases |b|
  {
    if b == [] {
      assert a + [d] + b == a + [d] && a + b == a;
      assert (a + [d])[..|a|] == a && (a + [d])[|a|] == d;
    } else {
      var b' := b[..|b| - 1];
      var e := b[|b| - 1];
      assert a + [d] + b == (a + [d] + b') + [e];
      assert a + b == (a + b') + [e];
      FirstBadSkips(a, d, b');
      FirstBadSnoc(a + [d] + b', a + b', e);
    }
  }

  /**
   * A line that is not a directive, or whose key is neither `endpoint` nor
   * `paginate` in any letter case, changes nothing wherever it stands.
   */
  lemma UnrecognisedLineIgnored(a: seq<Directive>, b: seq<Directive>)
    ensures MetadataOf(a + [Unrecognised] + b) == MetadataOf(a + b)
  {
    LastEndpointSkips(a, Unrecognised, b);
    LastPaginateSkips(a, Unrecognised, b);
    FirstBadSkips(a, Unrecognised, b);
  }

  /**
   * The last `endpoint` line wins: appending one replaces the endpoint and
   * keeps the page size, unless an earlier page size already failed.
   */
  lemma EndpointLastWins(ds: seq<Directive>, url: string)
    ensures FirstBadPaginate(ds).Some? ==> MetadataOf(ds + [Endpoint(url)]) == MetadataOf(ds)
    ensures FirstBadPaginate(ds).None? ==>
              MetadataOf(ds + [Endpoint(url)]) == Ok(QueryMetadata(url, PageSize(ds)))
  {
    var s := ds + [Endpoint(url)];
    assert s[..|s| - 1] == ds;
  }

  /**
   * The last `paginate` line wins: if it parses it replaces the page size
   * (and the endpoint found so far stays); if it does not parse, the
   * extraction fails with that value, whether or not an endpoint is known.
   */
  lemma PaginateLastWins(ds: seq<Directive>, size: string)
    requires FirstBadPaginate(ds).None?
    ensures ParseUsize(size).None? ==>
              MetadataOf(ds + [Paginate(size)]) == Err(InvalidPageSize(size))
    ensures ParseUsize(size).Some? ==>
              MetadataOf(ds + [Paginate(size)]) ==
                (match LastEndpoint(ds)
                 case None => Err(MissingEndpoint)
                 case Some(e) => Ok(QueryMetadata(e, ParseUsize(size))))
  {
    var s := ds + [Paginate(size)];
    assert s[..|s| - 1] == ds;
  }

  /**
   * Keys are compared case-insensitively: a directive line whose key
   * lower-cases to `endpoint` (`Endpoint`, `ENDPOINT`, ...) is an endpoint
   * directive carrying the text after the colon.
   */
  lemma EndpointAnyCase(pre: string, key: string, mid: string, value: string)
    requires AllSpace(pre) && AllSpace(mid) && LF !in pre && LF !in mid
    requires Lower(key) == EndpointKey
    requires |value| > 0 && !IsSpace(value[0]) && LF !in value
    ensures LF !in "#" + pre + key + ":" + mid + value
    ensures Classify("#" + pre + key + ":" + mid + value) == Endpoint(value)
  {
    forall j | 0 <= j < |key| ensures key[j] != ':' && key[j] != LF && !IsSpace(key[j]) {
      assert Lower(key)[j] == LowerChar(key[j]);
      assert EndpointKey[j] in "endpoint";
    }
    ClassifyDirectiveLine(pre, key, mid, value);
  }

  /** `paginate: 0` is accepted as a page size of zero. */
  lemma PaginateZeroAccepted(url: string)
    ensures MetadataOf([Endpoint(url), Paginate("0")]) == Ok(QueryMetadata(url, Some(0)))
  {
    var ds := [Endpoint(url), Paginate("0")];
    assert ds[..1] == [Endpoint(url)];
    assert [Endpoint(url)][..0] == [];
    assert DigitsValue("0") == 0 by { assert "0"[..0] == []; }
    assert ParseUsize("0") == Some(0);
    assert FirstBadPaginate(ds[..1]) == None;
    assert FirstBadPaginate(ds) == None;
    assert LastEndpoint(ds) == Some(url);
    assert PageSize(ds) == Some(0);
  }

  /**
   * A page size that does not parse fails the extraction even when no
   * endpoint is declared: that error is raised before the endpoint check.
   * A trailing space is enough to make it fail.
   */
  lemma BadPageSizeBeforeMissingEndpoint()
    ensures MetadataOf([Paginate("10 ")]) == Err(InvalidPageSize("10 "))
  {
    assert !IsDigit("10 "[2]);
    assert [Paginate("10 ")][..0] == [];
  }
}

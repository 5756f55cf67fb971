/**
 * Quoting of SQL identifiers and string literals for DuckDB statements
 * (src/duckdb_util.rs). Each function wraps its input in a pair of quote
 * characters after doubling every quote character inside it.
 */
module SqlQuote {
  import opened Base

  const DoubleQuoteChar: char := '"'
  const SingleQuoteChar: char := '\''

  /** Number of occurrences of `c` in `s`. */
  function Count(s: string, c: char): nat
  {
    if s == [] then 0 else (if s[0] == c then 1 else 0) + Count(s[1..], c)
  }

  /** `s` with every occurrence of `c` removed: the characters that quoting must leave alone. */
  function Without(s: string, c: char): string
  {
    if s == [] then [] else (if s[0] == c then [] else [s[0]]) + Without(s[1..], c)
  }

  /** `s.replace(q, qq)`: every `q` in `s` doubled, everything else kept in order. */
  function Doubled(s: string, q: char): (r: string)
    ensures |r| == |s| + Count(s, q)
  {
    if s == [] then []
    else (if s[0] == q then [q, q] else [s[0]]) + Doubled(s[1..], q)
  }

  /** `format!("{q}{}{q}", s.replace(q, qq))`. */
  function Quoted(s: string, q: char): string
  {
    [q] + Doubled(s, q) + [q]
  }

  /**
   * Reverse of `Doubled`: every adjacent pair `qq` becomes a single `q`,
   * scanning left to right.
   */
  function Undoubled(t: string, q: char): string
  {
    if t == [] then []
    else if |t| >= 2 && t[0] == q && t[1] == q then [q] + Undoubled(t[2..], q)
    else [t[0]] + Undoubled(t[1..], q)
  }

  /**
   * The body of a quoted SQL token as a lexer reads it: inside the quotes a
   * doubled quote stands for one quote, and the first single quote closes
   * the token. Returns the decoded content and the text after the token,
   * or None when the token is never closed.
   */
  function ReadBody(t: string, q: char): (r: Option<(string, string)>)
    ensures r.Some? ==> |r.value.1| < |t|
  {
    if t == [] then None
    else if t[0] == q then
      if |t| >= 2 && t[1] == q then
        match ReadBody(t[2..], q)
        case None => None
        case Some(p) => Some(([q] + p.0, p.1))
      else Some(([], t[1..]))
    else
      match ReadBody(t[1..], q)
      case None => None
      case Some(p) => Some(([t[0]] + p.0, p.1))
  }

  /** Reads one `q`-quoted token at the front of `t`. */
  function ReadQuoted(t: string, q: char): (r: Option<(string, string)>)
    ensures r.Some? ==> |r.value.1| < |t| - 1
  {
    if t == [] || t[0] != q then None else ReadBody(t[1..], q)
  }

  /** Inside the quotes, quote characters only occur as adjacent pairs. */
  predicate QuotesPaired(t: string, q: char)
  {
    if t == [] then true
    else if t[0] != q then QuotesPaired(t[1..], q)
    else |t| >= 2 && t[1] == q && QuotesPaired(t[2..], q)
  }

  lemma {:induction false} DoubledCounts(s: string, q: char)
    ensures Count(Doubled(s, q), q) == 2 * Count(s, q)
    ensures Without(Doubled(s, q), q) == Without(s, q)
  {
    if s != [] {
      DoubledCounts(s[1..], q);
      var head := if s[0] == q then [q, q] else [s[0]];
      CountAppend(head, Doubled(s[1..], q), q);
      WithoutAppend(head, Doubled(s[1..], q), q);
    }
  }

  lemma {:induction false} CountAppend(a: string, b: string, c: char)
    ensures Count(a + b, c) == Count(a, c) + Count(b, c)
  {
    if a != [] {
      assert (a + b)[1..] == a[1..] + b;
      CountAppend(a[1..], b, c);
    } else {
      assert a + b == b;
    }
  }

  lemma {:induction false} WithoutAppend(a: string, b: string, c: char)
    ensures Without(a + b, c) == Without(a, c) + Without(b, c)
  {
    if a != [] {
      assert (a + b)[1..] == a[1..] + b;
      WithoutAppend(a[1..], b, c);
    } else {
      assert a + b == b;
    }
  }

  /** Undoing the doubling gives the original string back. */
  lemma {:induction false} UndoubleDoubled(s: string, q: char)
    ensures Undoubled(Doubled(s, q), q) == s
  {
    if s != [] {
      UndoubleDoubled(s[1..], q);
      var d := Doubled(s, q);
      if s[0] == q {
        assert d == [q, q] + Doubled(s[1..], q);
        assert d[2..] == Doubled(s[1..], q);
      } else {
        assert d == [s[0]] + Doubled(s[1..], q);
        assert d[1..] == Doubled(s[1..], q);
      }
    }
  }

  /** A doubled string followed by a closing quote is read back exactly, leaving `rest`. */
  lemma {:induction false} ReadBodyDoubled(s: string, q: char, rest: string)
    requires rest == [] || rest[0] != q
    ensures ReadBody(Doubled(s, q) + [q] + rest, q) == Some((s, rest))
  {
    var t := Doubled(s, q) + [q] + rest;
    if s == [] {
      assert t == [q] + rest;
      assert t[1..] == rest;
    } else {
      ReadBodyDoubled(s[1..], q, rest);
      var tail := Doubled(s[1..], q) + [q] + rest;
      var head := if s[0] == q then [q, q] else [s[0]];
      ConcatFour(head, Doubled(s[1..], q), [q], rest);
      assert t == head + tail;
      assert t[|head|..] == tail;
      assert s == [s[0]] + s[1..];
    }
  }

  lemma {:induction false} DoubledIsPaired(s: string, q: char)
    ensures QuotesPaired(Doubled(s, q), q)
  {
    if s != [] {
      DoubledIsPaired(s[1..], q);
      var d := Doubled(s, q);
      if s[0] == q {
        assert d[2..] == Doubled(s[1..], q);
      } else {
        assert d[1..] == Doubled(s[1..], q);
      }
    }
  }

  lemma {:induction false} DoubledNoQuote(s: string, q: char)
    requires q !in s
    ensures Doubled(s, q) == s
  {
    if s != [] {
      assert q !in s[1..] by { assert forall i | 0 <= i < |s[1..]| :: s[1..][i] == s[i + 1]; }
      DoubledNoQuote(s[1..], q);
    }
  }

  /** Between its outer quotes, `Quoted(s, q)` is the doubled string. */
  lemma QuotedInner(s: string, q: char)
    ensures |Quoted(s, q)| == |Doubled(s, q)| + 2
    ensures Quoted(s, q)[1..|Quoted(s, q)| - 1] == Doubled(s, q)
  {
  }

  /** A quoted token followed by anything but a quote reads back as `s`, leaving `rest`. */
  lemma QuotedReads(s: string, q: char, rest: string)
    requires rest == [] || rest[0] != q
    ensures ReadQuoted(Quoted(s, q) + rest, q) == Some((s, rest))
  {
    var t := Quoted(s, q) + rest;
    ConcatFour([q], Doubled(s, q), [q], rest);
    assert t[1..] == Doubled(s, q) + [q] + rest;
    ReadBodyDoubled(s, q, rest);
  }

  /**
   * Everything promised of `Quoted`: it is a single quoted token (reading it
   * gives `s` back and consumes it whole, and it is not the prefix of a
   * longer token once followed by anything but a quote), its inner quotes come
   * in pairs, stripping the outer quotes and undoubling gives `s` back, and
   * its length grows by the quote count plus two.
   */
  lemma QuotedToken(s: string, q: char, rest: string)
    requires rest == [] || rest[0] != q
    ensures ReadQuoted(Quoted(s, q) + rest, q) == Some((s, rest))
    ensures QuotesPaired(Quoted(s, q)[1..|Quoted(s, q)| - 1], q)
    ensures Undoubled(Quoted(s, q)[1..|Quoted(s, q)| - 1], q) == s
    ensures q !in s ==> Quoted(s, q) == [q] + s + [q]
  {
    if q !in s { DoubledNoQuote(s, q); }
    QuotedReads(s, q, rest);
    QuotedInner(s, q);
    DoubledIsPaired(s, q);
    UndoubleDoubled(s, q);
  }

  /**
   * `escape_sql_identifier`: the name inside double quotes with each double
   * quote doubled, which DuckDB reads back as exactly the original name.
   */
  function EscapeSqlIdentifier(name: string): (r: string)
    ensures |r| == |name| + Count(name, DoubleQuoteChar) + 2
    ensures r[0] == DoubleQuoteChar && r[|r| - 1] == DoubleQuoteChar
    ensures ReadQuoted(r, DoubleQuoteChar) == Some((name, []))
    ensures Undoubled(r[1..|r| - 1], DoubleQuoteChar) == name
    ensures QuotesPaired(r[1..|r| - 1], DoubleQuoteChar)
    ensures DoubleQuoteChar !in name ==> r == [DoubleQuoteChar] + name + [DoubleQuoteChar]
  {
    QuotedToken(name, DoubleQuoteChar, []);
    assert Quoted(name, DoubleQuoteChar) + [] == Quoted(name, DoubleQuoteChar);
    Quoted(name, DoubleQuoteChar)
  }

  /**
   * `escape_sql_literal`: the value inside single quotes with each single
   * quote doubled, which DuckDB reads back as exactly the original string.
   */
  function EscapeSqlLiteral(value: string): (r: string)
    ensures |r| == |value| + Count(value, SingleQuoteChar) + 2
    ensures r[0] == SingleQuoteChar && r[|r| - 1] == SingleQuoteChar
    ensures ReadQuoted(r, SingleQuoteChar) == Some((value, []))
    ensures Undoubled(r[1..|r| - 1], SingleQuoteChar) == value
    ensures QuotesPaired(r[1..|r| - 1], SingleQuoteChar)
    ensures SingleQuoteChar !in value ==> r == [SingleQuoteChar] + value + [SingleQuoteChar]
  {
    QuotedToken(value, SingleQuoteChar, []);
    assert Quoted(value, SingleQuoteChar) + [] == Quoted(value, SingleQuoteChar);
    Quoted(value, SingleQuoteChar)
  }

  /**
   * A quoted literal followed by more statement text is read as one token:
   * the lexer stops exactly at its closing quote, whatever the value holds.
   */
  lemma LiteralIsOneToken(value: string, rest: string)
    requires rest == [] || rest[0] != SingleQuoteChar
    ensures ReadQuoted(EscapeSqlLiteral(value) + rest, SingleQuoteChar) == Some((value, rest))
  {
    QuotedToken(value, SingleQuoteChar, rest);
  }

  /** The same for a quoted identifier. */
  lemma IdentifierIsOneToken(name: string, rest: string)
    requires rest == [] || rest[0] != DoubleQuoteChar
    ensures ReadQuoted(EscapeSqlIdentifier(name) + rest, DoubleQuoteChar) == Some((name, rest))
  {
    QuotedToken(name, DoubleQuoteChar, rest);
  }

  /** A quoted identifier right after a fixed prefix is read back whole, leaving what follows. */
  lemma IdentifierAfterPrefix(prefix: string, name: string, rest: string)
    requires rest == [] || rest[0] != DoubleQuoteChar
    ensures var s := prefix + EscapeSqlIdentifier(name) + rest;
            |s| > |prefix| && s[..|prefix|] == prefix
            && ReadQuoted(s[|prefix|..], DoubleQuoteChar) == Some((name, rest))
  {
    SplitAfter(prefix, EscapeSqlIdentifier(name), rest);
    IdentifierIsOneToken(name, rest);
  }

  /** Quoting doubles every quote and keeps every other character, in order. */
  lemma EscapeKeepsOtherCharacters(s: string)
    ensures Without(EscapeSqlIdentifier(s), DoubleQuoteChar) == Without(s, DoubleQuoteChar)
    ensures Count(EscapeSqlIdentifier(s), DoubleQuoteChar) == 2 * Count(s, DoubleQuoteChar) + 2
    ensures Without(EscapeSqlLiteral(s), SingleQuoteChar) == Without(s, SingleQuoteChar)
    ensures Count(EscapeSqlLiteral(s), SingleQuoteChar) == 2 * Count(s, SingleQuoteChar) + 2
  {
    var dq, sq := DoubleQuoteChar, SingleQuoteChar;
    DoubledCounts(s, dq);
    DoubledCounts(s, sq);
    CountAppend([dq], Doubled(s, dq), dq);
    CountAppend([dq] + Doubled(s, dq), [dq], dq);
    WithoutAppend([dq], Doubled(s, dq), dq);
    WithoutAppend([dq] + Doubled(s, dq), [dq], dq);
    CountAppend([sq], Doubled(s, sq), sq);
    CountAppend([sq] + Doubled(s, sq), [sq], sq);
    WithoutAppend([sq], Doubled(s, sq), sq);
    WithoutAppend([sq] + Doubled(s, sq), [sq], sq);
  }
}

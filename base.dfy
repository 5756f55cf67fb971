/** Small shared vocabulary: optional values, fallible results and bytes. */
module Base {

  datatype Option<+T> = None | Some(value: T)

  datatype Result<+T, +E> = Ok(value: T) | Err(error: E)

  type byte = x: int | 0 <= x < 256

  type Bytes = seq<byte>

  /** The ASCII line feed that ends a line of text. */
  const LF: char := '\n'

  /** The ASCII carriage return that may precede a line feed. */
  const CR: char := '\r'

  /**
   * Regrouping of a four-part concatenation, stated once for any element
   * type so that the quoting proofs in SqlQuote and the struct-literal
   * proofs in ResultToDuckdb need not regroup string literals themselves.
   */
  lemma ConcatFour<T>(a: seq<T>, b: seq<T>, c: seq<T>, d: seq<T>)
    ensures a + b + c + d == a + (b + c + d)
  {
  }

  /**
   * A text built as `p + x + r` starts with `p`, and after `p` comes `x + r`.
   * Used by `SqlQuote.IdentifierAfterPrefix` to split a statement after its
   * keyword prefix.
   */
  lemma SplitAfter<T>(p: seq<T>, x: seq<T>, r: seq<T>)
    requires |x| > 0
    ensures var s := p + x + r;
            |s| > |p| && s[..|p|] == p && s[|p|..] == x + r
  {
    var s := p + x + r;
    assert s == p + (x + r);
  }

  /**
   * The last `|b|` elements of `a + b` are `b`. Used by
   * `Layer1.CommentEndsWithLiteral` to read the query text back from the end
   * of a COMMENT statement.
   */
  lemma SuffixOf<T>(a: seq<T>, b: seq<T>)
    ensures (a + b)[|a + b| - |b|..] == b
  {
  }
}

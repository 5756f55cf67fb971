/**
 * The few operations of Rust's `std::path::Path` that name query files and
 * exported files in src/layer1.rs, on `/`-separated strings: `join`,
 * `file_name`, `file_stem` and `with_extension`.
 */
module PathNames {
  import opened Base

  const Sep: char := '/'
  const Dot: char := '.'

  /** The position of the last `c` in `s`. */
  function LastIndex(s: string, c: char): (r: Option<nat>)
    ensures r.Some? ==> r.value < |s| && s[r.value] == c && c !in s[r.value + 1..]
    ensures r.None? ==> c !in s
  {
    if s == [] then None
    else if s[|s| - 1] == c then Some(|s| - 1)
    else
      var r := LastIndex(s[..|s| - 1], c);
      assert r.Some? ==> s[r.value + 1..] == s[..|s| - 1][r.value + 1..] + [s[|s| - 1]];
      assert r.None? ==> s == s[..|s| - 1] + [s[|s| - 1]];
      r
  }

  /** A `c` with no `c` after it is the last one. */
  lemma LastIndexIs(s: string, c: char, k: nat)
    requires k < |s| && s[k] == c && c !in s[k + 1..]
    ensures LastIndex(s, c) == Some(k)
  {
    assert s[k] in s;
  }

  /** `dir.join(part)` for a relative `part`. */
  function JoinPath(dir: string, part: string): string
  {
    dir + [Sep] + part
  }

  /** The last component of a path. */
  function FileName(path: string): string
  {
    match LastIndex(path, Sep)
    case None => path
    case Some(i) => path[i + 1..]
  }

  /**
   * `file_stem` of a file name: the part before the last dot, or the whole
   * name when it has no dot, when its only dot leads, or when it is `..`.
   */
  function FileStem(f: string): string
  {
    if f == ".." then f
    else
      match LastIndex(f, Dot)
      case None => f
      case Some(i) => if i == 0 then f else f[..i]
  }

  /**
   * `with_extension(ext)`: the file name cut after its stem and `.ext`
   * appended; a path without a file name is left alone.
   */
  function WithExtension(path: string, ext: string): string
  {
    var f := FileName(path);
    if f == [] || f == ".." then path
    else path[..|path| - |f|] + FileStem(f) + [Dot] + ext
  }

  /** Joining a component without separators makes it the file name. */
  lemma FileNameOfJoin(dir: string, f: string)
    requires Sep !in f
    ensures FileName(JoinPath(dir, f)) == f
  {
    var p := JoinPath(dir, f);
    assert p[|dir| + 1..] == f;
    LastIndexIs(p, Sep, |dir|);
  }

  /** Stripping the extension of `name.ext` gives `name` back. */
  lemma StemOfExtended(name: string, ext: string)
    requires name != [] && ext != [] && Dot !in ext
    ensures FileStem(name + [Dot] + ext) == name
  {
    var f := name + [Dot] + ext;
    assert |f| >= 3;
    assert f[|name| + 1..] == ext;
    LastIndexIs(f, Dot, |name|);
    assert f[..|name|] == name;
  }

  // ---------------------------------------------------------------------
  // Locating a query file from its name
  // ---------------------------------------------------------------------

  /**
   * The path `layer1` builds for query `name`:
   * `src_dir.join(name).with_extension("rq")`. The extension replaces the
   * part of `name` after its last dot.
   */
  function QueryPathAsWritten(srcDir: string, name: string): string
  {
    WithExtension(JoinPath(srcDir, name), "rq")
  }

  /** The query file's path as evidently intended: `name.rq` in the source directory. */
  function QueryPath(srcDir: string, name: string): string
  {
    JoinPath(srcDir, name + ".rq")
  }

  /** The file `sales.v2.rq` is listed under the name `sales.v2`. */
  lemma DottedNameListed()
    ensures FileStem("sales.v2.rq") == "sales.v2"
  {
    var f := "sales.v2.rq";
    assert f[8] == Dot && f[9..] == "rq";
    LastIndexIs(f, Dot, 8);
    assert f[..8] == "sales.v2";
  }

  /**
   * The path built for the name `sales.v2` is the intended path of the name
   * `sales` (`queries/sales.rq`): another file, whose stem `sales` then also
   * names the table.
   */
  lemma DottedNameAsWritten()
    ensures QueryPathAsWritten("queries", "sales.v2") == QueryPath("queries", "sales")
  {
    var name := "sales.v2";
    assert name[5] == Dot && name[6..] == "v2";
    LastIndexIs(name, Dot, 5);
    AsWrittenDropsLastDotPart("queries", name, 5);
    assert name[..5] == "sales";
  }

  /**
   * In general, every name with an inner dot is looked up under a shorter
   * name: the part before its last dot.
   */
  lemma {:induction false} AsWrittenDropsLastDotPart(srcDir: string, name: string, i: nat)
    requires Sep !in name && name != ".." && 0 < i < |name| && LastIndex(name, Dot) == Some(i)
    ensures QueryPathAsWritten(srcDir, name) == QueryPath(srcDir, name[..i])
    ensures FileName(QueryPathAsWritten(srcDir, name)) == name[..i] + ".rq"
    ensures FileStem(FileName(QueryPathAsWritten(srcDir, name))) == name[..i] != name
  {
    AsWrittenIsQueryPath(srcDir, name, i);
    var stem := name[..i];
    assert Sep !in stem + ".rq" by {
      assert forall k | 0 <= k < i :: stem[k] == name[k];
    }
    assert stem + ".rq" == stem + [Dot] + "rq";
    FileNameOfJoin(srcDir, stem + ".rq");
    StemOfExtended(stem, "rq");
    assert |stem| < |name|;
  }

  /** The path `with_extension` builds for a dotted name, as a join. */
  lemma AsWrittenIsQueryPath(srcDir: string, name: string, i: nat)
    requires Sep !in name && name != ".." && 0 < i < |name| && LastIndex(name, Dot) == Some(i)
    ensures QueryPathAsWritten(srcDir, name) == QueryPath(srcDir, name[..i])
  {
    WithExtensionOfJoin(srcDir, name, "rq");
    assert FileStem(name) == name[..i];
    RqSuffix(name[..i]);
  }

  /** `.rq` is a dot followed by the extension `rq`. */
  lemma RqSuffix(stem: string)
    ensures stem + ".rq" == stem + [Dot] + "rq"
  {
    assert ".rq" == [Dot] + "rq";
  }

  /** `dir.join(f).with_extension(ext)` replaces what follows the stem of `f`. */
  lemma WithExtensionOfJoin(dir: string, f: string, ext: string)
    requires Sep !in f && f != [] && f != ".."
    ensures WithExtension(JoinPath(dir, f), ext) == JoinPath(dir, FileStem(f) + [Dot] + ext)
  {
    var p := JoinPath(dir, f);
    FileNameOfJoin(dir, f);
    var stem := FileStem(f);
    assert WithExtension(p, ext) == p[..|p| - |f|] + stem + [Dot] + ext;
    assert p[..|p| - |f|] == dir + [Sep];
  }

  /**
   * The intended path names the file the name came from: its file name is
   * `name.rq` and its stem is `name` again, for every non-empty name
   * without a separator.
   */
  lemma QueryPathRecoversName(srcDir: string, name: string)
    requires name != [] && Sep !in name
    ensures FileName(QueryPath(srcDir, name)) == name + ".rq"
    ensures FileStem(FileName(QueryPath(srcDir, name))) == name
  {
    assert Sep !in name + ".rq";
    assert name + ".rq" == name + [Dot] + "rq";
    FileNameOfJoin(srcDir, name + ".rq");
    StemOfExtended(name, "rq");
  }

  /** For names without a dot both paths are the same. */
  lemma QueryPathAgreesWithoutDots(srcDir: string, name: string)
    requires name != [] && Sep !in name && Dot !in name
    ensures QueryPathAsWritten(srcDir, name) == QueryPath(srcDir, name)
  {
    var p := JoinPath(srcDir, name);
    FileNameOfJoin(srcDir, name);
    assert name != ".." by { assert ".."[0] == Dot; }
    assert p[..|p| - |name|] == srcDir + [Sep];
    assert FileStem(name) == name;
    assert name + ".rq" == name + [Dot] + "rq";
  }
}

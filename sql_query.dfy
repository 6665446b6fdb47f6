/**
 * `SqlQuery.FormatSqlQuery`: validates a location path, strips its trailing
 * backslashes and substitutes it for `{0}` in a query template.
 */
module SqlQuery {
  import opened Wrappers
  import opened Seqs

  /** `s.TrimEnd(c)`: `s` without the run of `c` at its end. */
  function TrimEnd(s: string, c: char): (r: string)
    ensures r <= s
    ensures r == [] || Last(r) != c
    ensures forall i :: |r| <= i < |s| ==> s[i] == c
  {
    if s == [] || Last(s) != c then s else TrimEnd(DropLast(s), c)
  }

  /**
   * `string.Format(template, arg)` for templates whose only format item is
   * `{0}`: every `{0}` is replaced by `arg`, every other character is copied.
   */
  function Format(template: string, arg: string): string
    decreases |template|
  {
    if |template| >= 3 && template[..3] == "{0}" then arg + Format(template[3..], arg)
    else if template == [] then []
    else [template[0]] + Format(template[1..], arg)
  }

  /** `FormatSqlQuery(query, locationPath)`. */
  function FormatSqlQuery(query: string, locationPath: string): (r: Result<string>)
    ensures r.Failure? <==> |locationPath| < 3
    ensures r.Failure? ==> r.error == ArgumentException
  {
    if |locationPath| < 3 then Failure(ArgumentException)
    else Success(Format(query, TrimEnd(locationPath, '\\')))
  }

  // ---------------------------------------------------------------- trimming

  /** Trimming keeps a path that does not end in a backslash, inner backslashes included. */
  lemma TrimEndKeepsUnterminated(s: string)
    requires s == [] || Last(s) != '\\'
    ensures TrimEnd(s, '\\') == s
  {
  }

  /** One trailing backslash more or less makes no difference, and trimming twice is trimming once. */
  lemma {:induction false} TrimEndAbsorbs(s: string)
    ensures TrimEnd(s + "\\", '\\') == TrimEnd(s, '\\')
    ensures TrimEnd(TrimEnd(s, '\\'), '\\') == TrimEnd(s, '\\')
  {
    var t := s + "\\";
    assert t != [] && Last(t) == '\\' && DropLast(t) == s;
  }

  /** `TrimEnd` removes exactly the trailing run: what is left is `s` minus a run of backslashes. */
  lemma TrimEndSplits(s: string)
    ensures var r := TrimEnd(s, '\\');
      s == r + s[|r|..] && forall i :: 0 <= i < |s| - |r| ==> s[|r|..][i] == '\\'
  {
    var r := TrimEnd(s, '\\');
    assert s == s[..|r|] + s[|r|..];
  }

  // ---------------------------------------------------------------- formatting

  lemma {:induction false} FormatCopiesBraceFree(pre: string, rest: string, arg: string)
    requires '{' !in pre
    ensures Format(pre + rest, arg) == pre + Format(rest, arg)
  {
    if pre != [] {
      var s := pre + rest;
      assert pre[0] in pre;
      assert s[0] == pre[0];
      assert s[1..] == pre[1..] + rest;
      FormatCopiesBraceFree(pre[1..], rest, arg);
    } else {
      assert pre + rest == rest;
    }
  }

  /** A template without a brace is copied unchanged. */
  lemma FormatBraceFree(s: string, arg: string)
    requires '{' !in s
    ensures Format(s, arg) == s
  {
    FormatCopiesBraceFree(s, [], arg);
    assert s + [] == s;
  }

  /** A leading `{0}` becomes the argument. */
  lemma FormatLeadingPlaceholder(post: string, arg: string)
    ensures Format("{0}" + post, arg) == arg + Format(post, arg)
  {
    var t := "{0}" + post;
    assert |t| >= 3 && t[..3] == "{0}" && t[3..] == post;
  }

  /** The result is the template with its one `{0}` replaced by the argument. */
  lemma FormatOnePlaceholder(pre: string, post: string, arg: string)
    requires '{' !in pre && '{' !in post
    ensures Format(pre + "{0}" + post, arg) == pre + arg + post
  {
    var t := "{0}" + post;
    assert pre + "{0}" + post == pre + t;
    FormatCopiesBraceFree(pre, t, arg);
    FormatLeadingPlaceholder(post, arg);
    FormatBraceFree(post, arg);
    assert pre + (arg + post) == pre + arg + post;
  }

  /** With a valid path the query is the template filled with the trimmed path. */
  lemma FormatSqlQueryFillsTrimmedPath(pre: string, post: string, locationPath: string)
    requires '{' !in pre && '{' !in post && |locationPath| >= 3
    ensures FormatSqlQuery(pre + "{0}" + post, locationPath) == Success(pre + TrimEnd(locationPath, '\\') + post)
  {
    FormatOnePlaceholder(pre, post, TrimEnd(locationPath, '\\'));
  }

  // ---------------------------------------------------------------- examples

  lemma FormatPlaceholderOnly(arg: string)
    ensures Format("{0}", arg) == arg
  {
    FormatOnePlaceholder([], [], arg);
    assert [] + "{0}" + [] == "{0}";
  }

  /** The template of the root-drive test, around its `{0}`. */
  const QueryHead := "SELECT * FROM [Foo] WHERE [Path] = "

  lemma QueryHeadBraceFree()
    ensures '{' !in QueryHead
  {
    forall i | 0 <= i < |QueryHead|
      ensures QueryHead[i] != '{'
    {
    }
  }

  lemma RootDriveTrimmed()
    ensures TrimEnd("C:\\", '\\') == "C:"
  {
    TrimEndAbsorbs("C:");
    assert "C:" + "\\" == "C:\\";
    assert TrimEnd("C:", '\\') == "C:";
  }

  /** A root drive loses its backslash, so the template's own backslash follows the drive letter. */
  lemma RootDriveExample()
    ensures FormatSqlQuery("SELECT * FROM [Foo] WHERE [Path] = {0}\\", "C:\\")
         == Success("SELECT * FROM [Foo] WHERE [Path] = C:\\")
  {
    assert QueryHead + "{0}" + "\\" == "SELECT * FROM [Foo] WHERE [Path] = {0}\\";
    assert QueryHead + "C:" + "\\" == "SELECT * FROM [Foo] WHERE [Path] = C:\\";
    QueryHeadBraceFree();
    assert '{' !in "\\";
    RootDriveTrimmed();
    FormatSqlQueryFillsTrimmedPath(QueryHead, "\\", "C:\\");
  }

  /** A directory with or without one trailing backslash gives the same query. */
  lemma DirectoryExamples()
    ensures FormatSqlQuery("{0}", "C:\\foo\\bar") == Success("C:\\foo\\bar")
    ensures FormatSqlQuery("{0}", "C:\\foo\\bar\\") == Success("C:\\foo\\bar")
  {
    var d := "C:\\foo\\bar";
    assert Last(d) == 'r';
    assert TrimEnd(d, '\\') == d;
    TrimEndAbsorbs(d);
    assert d + "\\" == "C:\\foo\\bar\\";
    FormatPlaceholderOnly(d);
  }

  /** Three trailing backslashes all go. */
  lemma TrailingRunTrimmed(s: string)
    ensures TrimEnd(s + "\\\\\\", '\\') == TrimEnd(s, '\\')
  {
    TrimEndAbsorbs(s);
    TrimEndAbsorbs(s + "\\");
    TrimEndAbsorbs(s + "\\\\");
    assert s + "\\" + "\\" == s + "\\\\";
    assert s + "\\\\" + "\\" == s + "\\\\\\";
  }

  /** Every trailing backslash goes; a two-character path is refused. */
  lemma TrailingRunAndShortExamples()
    ensures FormatSqlQuery("{0}", "foo\\\\\\") == Success("foo")
    ensures FormatSqlQuery("{0}", "\\\\") == Failure(ArgumentException)
  {
    TrailingRunTrimmed("foo");
    assert "foo" + "\\\\\\" == "foo\\\\\\";
    assert TrimEnd("foo", '\\') == "foo";
    FormatPlaceholderOnly("foo");
  }

  /** The length is checked before trimming: three backslashes pass and leave an empty path. */
  lemma AllBackslashPathPasses()
    ensures FormatSqlQuery("{0}", "\\\\\\") == Success("")
  {
    TrailingRunTrimmed("");
    assert "" + "\\\\\\" == "\\\\\\";
    assert TrimEnd("", '\\') == "";
    FormatPlaceholderOnly("");
  }
}

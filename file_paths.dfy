/**
 * The option list of the file picker: each line the directory listing printed is
 * turned into a path by replacing every "./" with "/" and putting the typed input
 * in front of it.
 */
module FilePaths {

  /** The pattern occurs in s starting at index i. */
  predicate MatchAt(s: string, pattern: string, i: int)
  {
    0 <= i && i + |pattern| <= |s| && s[i..i + |pattern|] == pattern
  }

  /** The pattern occurs somewhere in s. */
  predicate Occurs(s: string, pattern: string)
  {
    exists i :: 0 <= i <= |s| && MatchAt(s, pattern, i)
  }

  /**
   * Replacement of every occurrence of a search string, scanning left to right:
   * after a match the scan resumes behind it, so matches never overlap and the
   * inserted text is not scanned again. An empty search string changes nothing, and a
   * replacement no longer than the search string never lengthens the subject.
   */
  function ReplaceAll(s: string, search: string, replacement: string): (r: string)
    ensures search == [] ==> r == s
    ensures |replacement| <= |search| ==> |r| <= |s|
    ensures |replacement| == |search| ==> |r| == |s|
    decreases |s|
  {
    if search == [] || |s| < |search| then s
    else if s[..|search|] == search then replacement + ReplaceAll(s[|search|..], search, replacement)
    else [s[0]] + ReplaceAll(s[1..], search, replacement)
  }

  /** The option the picker offers for one listed line: the typed input, then the line rewritten, never longer. */
  function RewritePath(input: string, line: string): (path: string)
    ensures |input| <= |path| <= |input| + |line|
    ensures path[..|input|] == input
  {
    input + ReplaceAll(line, "./", "/")
  }

  /** The options the picker offers: one per listed line, in listing order. */
  function RewritePaths(input: string, lines: seq<string>): (paths: seq<string>)
    ensures |paths| == |lines|
    ensures forall i :: 0 <= i < |lines| ==> paths[i] == RewritePath(input, lines[i])
  {
    if lines == [] then []
    else [RewritePath(input, lines[0])] + RewritePaths(input, lines[1..])
  }

  /** A string in which the search string does not occur is left as it is. */
  lemma {:induction false} ReplaceAllWithoutMatch(s: string, search: string, replacement: string)
    requires !Occurs(s, search)
    ensures ReplaceAll(s, search, replacement) == s
    decreases |s|
  {
    if search == [] || |s| < |search| {
    } else {
      assert !MatchAt(s, search, 0);
      assert s[..|search|] != search;
      forall i | MatchAt(s[1..], search, i) ensures MatchAt(s, search, i + 1) {
        assert s[1..][i..i + |search|] == s[i + 1..i + 1 + |search|];
      }
      ReplaceAllWithoutMatch(s[1..], search, replacement);
    }
  }

  /** s with every '.' taken out. */
  function Undotted(s: string): (r: string)
    ensures |r| <= |s|
  {
    if s == [] then []
    else (if s[0] == '.' then [] else [s[0]]) + Undotted(s[1..])
  }

  lemma {:induction false} UndottedAppend(a: string, b: string)
    ensures Undotted(a + b) == Undotted(a) + Undotted(b)
    decreases |a|
  {
    if a == [] {
      assert a + b == b;
    } else {
      assert (a + b)[1..] == a[1..] + b;
      UndottedAppend(a[1..], b);
    }
  }

  /**
   * Rewriting "./" to "/" only ever deletes dots: the result is never longer, and
   * apart from dots it holds exactly the characters of the line, in order.
   */
  lemma {:induction false} DotSlashOnlyDropsDots(line: string)
    ensures |ReplaceAll(line, "./", "/")| <= |line|
    ensures Undotted(ReplaceAll(line, "./", "/")) == Undotted(line)
    decreases |line|
  {
    var r := ReplaceAll(line, "./", "/");
    if |line| < 2 {
    } else if line[..2] == "./" {
      var rest := line[2..];
      DotSlashOnlyDropsDots(rest);
      assert r == "/" + ReplaceAll(rest, "./", "/");
      UndottedAppend("/", ReplaceAll(rest, "./", "/"));
      assert line == "./" + rest;
      UndottedAppend("./", rest);
    } else {
      var rest := line[1..];
      DotSlashOnlyDropsDots(rest);
      assert r == [line[0]] + ReplaceAll(rest, "./", "/");
      UndottedAppend([line[0]], ReplaceAll(rest, "./", "/"));
      assert line == [line[0]] + rest;
      UndottedAppend([line[0]], rest);
    }
  }

  /**
   * A listing line "./name" whose name holds no further "./" becomes the typed input,
   * a slash and the name; the directory's own line "." becomes the input with a dot
   * appended, and an empty line becomes the input alone.
   */
  lemma FindLinesRewrite(input: string, name: string)
    requires !Occurs(name, "./")
    ensures RewritePath(input, "./" + name) == input + "/" + name
    ensures RewritePath(input, ".") == input + "."
    ensures RewritePath(input, "") == input
  {
    var line := "./" + name;
    assert line[..2] == "./";
    assert line[2..] == name;
    ReplaceAllWithoutMatch(name, "./", "/");
  }

  /** The rewrite is not idempotent: a line "../" becomes "./", which a second rewrite would turn into "/". */
  lemma DotDotSlashRewrite()
    ensures ReplaceAll("../", "./", "/") == "./"
    ensures ReplaceAll("./", "./", "/") == "/"
  {
    var line := "../";
    assert line[..2][1] == '.' && "./"[1] == '/';
    assert line[1..] == "./";
    assert "./"[..2] == "./";
  }
}

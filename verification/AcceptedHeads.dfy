/** Which header lines the redactor accepts: index lines, path lines and their quoting, in both
    directions; every repository path has such headers, in every spelling. */
module AcceptedHeads {
  import opened LineSplitting
  import opened HunkHeaders
  import opened RepositoryPaths
  import opened GitDiffHeaders
  import opened DiffRedaction
  import opened DiffGrammar

  // ----- index lines

  predicate IsMode(suffix: string) { suffix in ["", " 100644", " 100755"] }

  function IndexText(oldName: string, newName: string, suffix: string): string {
    "index " + (oldName + (".." + (newName + (suffix + "\n"))))
  }

  /** Two object names of one length, 40 or 64 hexadecimal digits, and perhaps a mode. */
  predicate AreNames(oldName: string, newName: string) { |oldName| == |newName| && |oldName| in {40, 64} && AreDigits(oldName) && AreDigits(newName) }

  predicate AreDigits(name: string) { forall k :: 0 <= k < |name| ==> name[k] in "0123456789abcdef" }

  lemma {:induction false} DigitsAre(c: char)
    ensures IsHexDigit(c) <==> c in "0123456789abcdef"
  {
    var digits := "0123456789abcdef";
    if '0' <= c <= '9' {
      assert digits[c as int - '0' as int] == c;
    } else if 'a' <= c <= 'f' {
      assert digits[10 + (c as int - 'a' as int)] == c;
    }
  }

  lemma {:induction false} DigitsAreHex(name: string)
    ensures AreDigits(name) <==> IsHex(name)
  {
    forall c ensures IsHexDigit(c) <==> c in "0123456789abcdef" {
      DigitsAre(c);
    }
  }

  lemma {:induction false} SplitAt(a: string, b: string)
    ensures (a + b)[..|a|] == a && (a + b)[|a|..] == b
  {
  }

  /** A stretch of a text, taken from a later part of it. */
  lemma {:induction false} Stretch(s: string, i: nat, j: nat, k: nat)
    requires i <= j <= k <= |s|
    ensures s[i..][..j - i] == s[i..j] && s[i..][j - i..] == s[j..] && s[i..] == s[i..j] + s[j..]
  {
  }

  lemma {:induction false} IndexIsAccepted(oldName: string, newName: string, suffix: string)
    requires AreNames(oldName, newName) && IsMode(suffix)
    ensures IsIndexOf(IndexText(oldName, newName, suffix), |oldName|)
  {
    var line, n, tail := IndexText(oldName, newName, suffix), |oldName|, suffix + "\n";
    DigitsAreHex(oldName);
    DigitsAreHex(newName);
    SplitAt("index ", oldName + (".." + (newName + tail)));
    SplitAt(oldName, ".." + (newName + tail));
    SplitAt("..", newName + tail);
    SplitAt(newName, tail);
    Stretch(line, 6, 6 + n, |line|);
    Stretch(line, 6 + n, 8 + n, |line|);
    Stretch(line, 8 + n, 8 + 2 * n, |line|);
    ModeEnds(suffix);
  }

  lemma {:induction false} ModeEnds(suffix: string)
    requires IsMode(suffix)
    ensures suffix + "\n" in ["\n", " 100644\n", " 100755\n"]
  {
    assert "" + "\n" == "\n" && " 100644" + "\n" == " 100644\n" && " 100755" + "\n" == " 100755\n";
  }

  lemma {:induction false} EndsMode(tail: string)
    requires tail in ["\n", " 100644\n", " 100755\n"]
    ensures IsMode(Front(tail)) && Front(tail) + "\n" == tail
  {
    assert "\n" == "" + "\n" && " 100644\n" == " 100644" + "\n" && " 100755\n" == " 100755" + "\n";
    if tail == "\n" {
      assert Front(tail) == "";
    } else if tail == " 100644\n" {
      assert Front(tail) == " 100644";
    } else {
      assert Front(tail) == " 100755";
    }
  }

  /** What an index line is made of. */
  ghost predicate IsIndexTextOf(line: string, oldName: string, newName: string, suffix: string) {
    AreNames(oldName, newName) && IsMode(suffix) && line == IndexText(oldName, newName, suffix)
  }

  lemma {:induction false} IndexIsSpelled(line: string, n: nat) returns (oldName: string, newName: string, suffix: string)
    requires IsIndexOf(line, n) && n in {40, 64}
    ensures IsIndexTextOf(line, oldName, newName, suffix)
  {
    var tail := line[8 + 2 * n..];
    oldName, newName, suffix := line[6..6 + n], line[8 + n..8 + 2 * n], Front(tail);
    DigitsAreHex(oldName);
    DigitsAreHex(newName);
    EndsMode(tail);
    Stretches(line, 6, 6 + n, 8 + n, 8 + 2 * n);
  }

  lemma {:induction false} Stretches(s: string, a: nat, b: nat, c: nat, d: nat)
    requires a <= b <= c <= d <= |s|
    ensures s == s[..a] + (s[a..b] + (s[b..c] + (s[c..d] + s[d..])))
  {
    Stretch(s, c, d, |s|);
    Stretch(s, b, c, |s|);
    Stretch(s, a, b, |s|);
  }

  /** The accepted index lines, exactly. */
  lemma {:induction false} IndexExactly(line: string)
    ensures IsIndexLine(line) <==> exists oldName, newName, suffix :: IsIndexTextOf(line, oldName, newName, suffix)
  {
    if IsIndexLine(line) {
      var oldName, newName, suffix := IndexIsSpelled(line, if IsIndexOf(line, 40) then 40 else 64);
    }
    if oldName, newName, suffix :| IsIndexTextOf(line, oldName, newName, suffix) {
      IndexIsAccepted(oldName, newName, suffix);
    }
  }

  // ----- quoted paths

  /** The text without its backslashes. */
  function Plain(inner: string): string {
    if inner == [] then [] else (if inner[0] == '\\' then [] else [inner[0]]) + Plain(inner[1..])
  }

  /** Every backslash stands before a quote. */
  predicate EscapesQuotes(inner: string) {
    forall i :: 0 <= i < |inner| && inner[i] == '\\' ==> i + 1 < |inner| && inner[i + 1] == '"'
  }

  lemma {:induction false} EscapesTail(inner: string, k: nat)
    requires k <= |inner| && EscapesQuotes(inner)
    ensures EscapesQuotes(inner[k..])
  {
    var tail := inner[k..];
    forall i | 0 <= i < |tail| && tail[i] == '\\' ensures i + 1 < |tail| && tail[i + 1] == '"' {
      assert inner[k + i] == '\\';
    }
  }

  lemma {:induction false} EscapesMore(inner: string, k: nat)
    requires k <= |inner| && EscapesQuotes(inner[k..]) && k in {1, 2}
    requires if k == 1 then inner[0] != '\\' else inner[0] == '\\' && inner[1] == '"'
    ensures EscapesQuotes(inner)
  {
    forall i | 0 <= i < |inner| && inner[i] == '\\' ensures i + 1 < |inner| && inner[i + 1] == '"' {
      if i >= k {
        assert inner[k..][i - k] == '\\';
      }
    }
  }

  /** Unescaping succeeds exactly when every backslash stands before a quote, and drops them. */
  lemma {:induction false} UnescapeExactly(inner: string)
    ensures Unescape(inner) == if EscapesQuotes(inner) then Some(Plain(inner)) else None
    decreases |inner|
  {
    if inner != [] {
      if inner[0] != '\\' {
        UnescapeExactly(inner[1..]);
        if EscapesQuotes(inner) {
          EscapesTail(inner, 1);
        } else if EscapesQuotes(inner[1..]) {
          EscapesMore(inner, 1);
        }
      } else if |inner| >= 2 && inner[1] == '"' {
        UnescapeExactly(inner[2..]);
        PlainPair(inner);
        if EscapesQuotes(inner) {
          EscapesTail(inner, 2);
        } else if EscapesQuotes(inner[2..]) {
          EscapesMore(inner, 2);
        }
      }
    }
  }

  lemma {:induction false} PlainPair(inner: string)
    requires |inner| >= 2 && inner[0] == '\\' && inner[1] == '"'
    ensures Plain(inner) == ['"'] + Plain(inner[2..])
  {
    assert inner[1..][1..] == inner[2..];
  }

  /** The value names the token: as it is when it holds no quote, or in quotes with some of its quotes
      escaped. */
  predicate Names(value: string, token: string) {
    || (value == token && '"' !in token)
    || (|value| >= 2 && value[0] == '"' && Last(value) == '"' && EscapesQuotes(value[1..|value| - 1]) && Plain(value[1..|value| - 1]) == token)
  }

  /** The decoder accepts exactly the values that name a path under the prefix. */
  lemma {:induction false} DecodeExactly(value: string, prefix: string, path: string)
    requires prefix != [] && prefix[0] != '"'
    ensures DecodeGitPath(value, prefix) == Some(path) <==> Names(value, prefix + path)
  {
    if value != [] && value[0] == '"' {
      if |value| >= 2 && Last(value) == '"' {
        UnescapeExactly(value[1..|value| - 1]);
        PrefixExactly(Plain(value[1..|value| - 1]), prefix, path);
      }
      assert (prefix + path)[0] == prefix[0];
    } else {
      PrefixExactly(value, prefix, path);
    }
  }

  lemma {:induction false} PrefixExactly(token: string, prefix: string, path: string)
    ensures WithoutPrefix(token, prefix) == Some(path) <==> token == prefix + path
  {
    SplitAt(prefix, path);
    if prefix <= token {
      assert token == prefix + token[|prefix|..];
    }
  }

  /** The two path lines are accepted exactly when they name one repository path, under "a/" and "b/",
      or the first is that of a new file. */
  lemma {:induction false} FilePathExactly(oldHeader: string, newHeader: string, path: string, other: char -> bool)
    ensures FilePath(oldHeader, newHeader, other) == Some(path) <==>
      && |oldHeader| >= 5 && |newHeader| >= 5 && "--- " <= oldHeader && "+++ " <= newHeader && IsRepositoryPath(path, other)
      && Names(newHeader[4..|newHeader| - 1], "b/" + path)
      && (oldHeader[4..|oldHeader| - 1] == "/dev/null" || Names(oldHeader[4..|oldHeader| - 1], "a/" + path))
  {
    if |oldHeader| >= 5 && |newHeader| >= 5 && "--- " <= oldHeader && "+++ " <= newHeader {
      DecodeExactly(newHeader[4..|newHeader| - 1], "b/", path);
      DecodeExactly(oldHeader[4..|oldHeader| - 1], "a/", path);
      var found := DecodeGitPath(newHeader[4..|newHeader| - 1], "b/");
      if found.Some? {
        DecodeExactly(newHeader[4..|newHeader| - 1], "b/", found.value);
      }
    }
  }

  // ----- hunk headers

  /** A side that has lines starts at one of them, and some side has lines. */
  predicate IsRealStart(c: Coordinates) {
    (c.oldCount > 0 ==> c.oldStart > 0) && (c.newCount > 0 ==> c.newStart > 0) && (c.oldCount > 0 || c.newCount > 0)
  }

  lemma {:induction false} StartFrom(line: string, parsed: Option<Coordinates>)
    requires line != [] && Last(line) == '\n' && ParseHunkHeader(Front(line)) == parsed
    ensures HunkStart(line) == if parsed.Some? && IsRealStart(parsed.value) then parsed else None
  {
  }

  lemma {:induction false} StartIsSpelled(text: string, parsed: Option<Coordinates>)
    requires ParseHunkHeader(text) == parsed && parsed.Some?
    ensures IsSpelling(text, parsed.value)
  {
    HeaderIsPrinted(text);
  }

  lemma {:induction false} SpelledStarts(c: Coordinates, text: string)
    requires IsSpelling(text, c)
    ensures ParseHunkHeader(text) == Some(c) && Front(text + "\n") == text
  {
    var omitOld, omitNew :| text == PrintHeader(c, omitOld, omitNew);
    ParsePrintedHeader(c, omitOld, omitNew);
  }

  /** The accepted hunk headers, exactly: the four spellings of coordinates like that, each with its LF. */
  lemma {:induction false} StartExactly(line: string, c: Coordinates)
    ensures HunkStart(line) == Some(c) <==>
      IsRealStart(c) && line != [] && Last(line) == '\n' && IsSpelling(Front(line), c)
  {
    if line != [] && Last(line) == '\n' {
      var parsed := ParseHunkHeader(Front(line));
      StartFrom(line, parsed);
      if parsed.Some? {
        StartIsSpelled(Front(line), parsed);
      }
      if IsSpelling(Front(line), c) {
        SpelledStarts(c, Front(line));
      }
    }
  }

  // ----- every path has headers

  function Shown(token: string, quoted: bool): string { if quoted then Quote(token) else token }

  /** The headers of a path: a new file or not, quoted or not, with any object names and mode. */
  function HeadsFor(path: string, isNew: bool, quoted: bool, index: string): Heads {
    Heads(GIT_PREFIX + Shown("a/" + path, quoted) + " " + Shown("b/" + path, quoted) + "\n", isNew, index,
          "--- " + (if isNew then "/dev/null" else Shown("a/" + path, quoted)) + "\n", "+++ " + Shown("b/" + path, quoted) + "\n", path)
  }

  lemma {:induction false} ShownNames(token: string, quoted: bool)
    requires '\\' !in token && token != [] && (!quoted ==> '"' !in token)
    ensures Names(Shown(token, quoted), token)
  {
    if quoted {
      var value := Quote(token);
      assert value[1..|value| - 1] == Escape(token);
      UnescapeEscape(token);
      UnescapeExactly(Escape(token));
    }
  }

  lemma {:induction false} Enclosed(before: string, value: string)
    ensures (before + value + "\n")[|before|..|before + value + "\n"| - 1] == value && before <= before + value + "\n"
  {
  }

  /** Every repository path, plain where it holds no quote and quoted always, new or not, has headers
      that the redactor accepts, with object names of either length and any of the modes. */
  lemma {:induction false} EveryPathIsAccepted(path: string, isNew: bool, quoted: bool, oldName: string, newName: string, suffix: string, other: char -> bool)
    requires IsRepositoryPath(path, other) && (!quoted ==> '"' !in path)
    requires AreNames(oldName, newName) && IsMode(suffix)
    ensures HeadsOk(HeadsFor(path, isNew, quoted, IndexText(oldName, newName, suffix)), None, GitLexer(other))
  {
    IndexIsAccepted(oldName, newName, suffix);
    PathLinesAreAccepted(path, isNew, quoted, other);
    GitLineIs(path, quoted);
  }

  lemma {:induction false} PathLinesAreAccepted(path: string, isNew: bool, quoted: bool, other: char -> bool)
    requires IsRepositoryPath(path, other) && (!quoted ==> '"' !in path)
    ensures
      var heads := HeadsFor(path, isNew, quoted, "");
      FilePath(heads.oldHeader, heads.newHeader, other) == Some(path)
  {
    var heads, value := HeadsFor(path, isNew, quoted, ""), if isNew then "/dev/null" else Shown("a/" + path, quoted);
    ShownNames("a/" + path, quoted);
    ShownNames("b/" + path, quoted);
    Enclosed("--- ", value);
    Enclosed("+++ ", Shown("b/" + path, quoted));
    FilePathExactly(heads.oldHeader, heads.newHeader, path, other);
  }

  lemma {:induction false} GitLineIs(path: string, quoted: bool)
    ensures
      var git := GIT_PREFIX + Shown("a/" + path, quoted) + " " + Shown("b/" + path, quoted) + "\n";
      GIT_PREFIX <= git && IsGitLineOf(git, path)
  {
  }
}

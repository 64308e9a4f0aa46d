/** The header lines of a canonical Git diff: file line, index line, and quoted paths. */
module GitDiffHeaders {
  import opened LineSplitting
  import opened RepositoryPaths

  const GIT_PREFIX := "diff --git "
  const NEW_MODE := "new file mode 100644\n"

  predicate IsHexDigit(c: char) { '0' <= c <= '9' || 'a' <= c <= 'f' }

  predicate IsHex(text: string) { forall i :: 0 <= i < |text| ==> IsHexDigit(text[i]) }

  /** An index line with object names of `n` digits. */
  predicate IsIndexOf(line: string, n: nat) {
    && |line| > 8 + 2 * n
    && line[..6] == "index " && IsHex(line[6..6 + n]) && line[6 + n..8 + n] == ".." && IsHex(line[8 + n..8 + 2 * n])
    && line[8 + 2 * n..] in ["\n", " 100644\n", " 100755\n"]
  }

  /** `_CANONICAL_INDEX_HEADER`, both names of one length. */
  predicate IsIndexLine(line: string) { IsIndexOf(line, 40) || IsIndexOf(line, 64) }

  // ----- quoted paths

  function Escape(text: string): string {
    if text == [] then [] else (if text[0] == '"' then "\\\"" else [text[0]]) + Escape(text[1..])
  }

  function Unescape(inner: string): Option<string> {
    if inner == [] then Some([])
    else if inner[0] != '\\' then
      match Unescape(inner[1..])
      case None => None
      case Some(rest) => Some([inner[0]] + rest)
    else if |inner| < 2 || inner[1] != '"' then None
    else
      match Unescape(inner[2..])
      case None => None
      case Some(rest) => Some(['"'] + rest)
  }

  /** `_quote_git_path` */
  function Quote(value: string): string { "\"" + Escape(value) + "\"" }

  function WithoutPrefix(token: string, prefix: string): Option<string> {
    if prefix <= token then Some(token[|prefix|..]) else None
  }

  /** `_decode_git_path` */
  function DecodeGitPath(value: string, prefix: string): Option<string> {
    if value != [] && value[0] == '"' then
      if |value| < 2 || Last(value) != '"' then None
      else
        match Unescape(value[1..|value| - 1])
        case None => None
        case Some(token) => WithoutPrefix(token, prefix)
    else if '"' in value then None
    else WithoutPrefix(value, prefix)
  }

  lemma {:induction false} UnescapeEscape(text: string)
    requires '\\' !in text
    ensures Unescape(Escape(text)) == Some(text)
  {
    if text != [] {
      UnescapeEscape(text[1..]);
      var rest := Escape(text[1..]);
      assert text == [text[0]] + text[1..];
      if text[0] == '"' {
        assert Escape(text)[2..] == rest;
      } else {
        assert Escape(text)[1..] == rest;
      }
    }
  }

  /** Quoting a path loses nothing: repository paths hold no backslash. */
  lemma {:induction false} QuoteRoundTrip(path: string, prefix: string)
    requires '\\' !in path && '\\' !in prefix
    ensures DecodeGitPath(Quote(prefix + path), prefix) == Some(path)
  {
    UnescapeEscape(prefix + path);
    var value := Quote(prefix + path);
    assert value[1..|value| - 1] == Escape(prefix + path);
  }

  /** `_canonical_file_path` on the two header lines. */
  function FilePath(oldHeader: string, newHeader: string, other: char -> bool): Option<string> {
    if |oldHeader| < 5 || |newHeader| < 5 || !("--- " <= oldHeader) || !("+++ " <= newHeader) then None
    else
      var oldValue, newValue := oldHeader[4..|oldHeader| - 1], newHeader[4..|newHeader| - 1];
      match DecodeGitPath(newValue, "b/")
      case None => None
      case Some(path) =>
        if oldValue != "/dev/null" && DecodeGitPath(oldValue, "a/") != Some(path) then None
        else if !IsRepositoryPath(path, other) then None
        else Some(path)
  }

  /** The two ways to write the file line of a path. */
  predicate IsGitLineOf(line: string, path: string) {
    || line == GIT_PREFIX + ("a/" + path) + " " + ("b/" + path) + "\n"
    || line == GIT_PREFIX + Quote("a/" + path) + " " + Quote("b/" + path) + "\n"
  }
}

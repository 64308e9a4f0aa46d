/** Repository paths and the character classes shared by the text formats. */
module RepositoryPaths {
  import opened LineSplitting

  /** Unicode category Cc, the only control class with an encoding of its own in this model. */
  predicate IsCc(c: char) { c < ' ' || '\U{7F}' <= c <= '\U{9F}' }

  /** A character whose Unicode category starts with C; `other` decides Cf, Cn, Co. */
  predicate IsControl(c: char, other: char -> bool) { IsCc(c) || other(c) }

  function Utf8Size(c: char): nat {
    if c < '\U{80}' then 1 else if c < '\U{800}' then 2 else if c < '\U{10000}' then 3 else 4
  }

  function Utf8Length(text: string): nat {
    if text == [] then 0 else Utf8Length(Front(text)) + Utf8Size(Last(text))
  }

  /** Order of the UTF-8 encodings, which is the order of code points. */
  predicate PathLess(a: string, b: string) { LessFrom(a, b, 0) }

  predicate LessFrom(a: string, b: string, k: nat)
    requires k <= |a| && k <= |b|
    decreases |a| - k
  {
    k < |b| && (k == |a| || a[k] < b[k] || (a[k] == b[k] && LessFrom(a, b, k + 1)))
  }

  lemma {:induction false} PathLessTransitive(a: string, b: string, c: string)
    requires PathLess(a, b) && PathLess(b, c)
    ensures PathLess(a, c)
  {
    LessFromTransitive(a, b, c, 0);
  }

  lemma {:induction false} LessFromTransitive(a: string, b: string, c: string, k: nat)
    requires k <= |a| && k <= |b| && k <= |c| && LessFrom(a, b, k) && LessFrom(b, c, k)
    ensures LessFrom(a, c, k)
    decreases |a| - k
  {
    if k < |a| && a[k] == b[k] && b[k] == c[k] {
      LessFromTransitive(a, b, c, k + 1);
    }
  }

  predicate IsSlash(c: char) { c == '/' }

  /** The text between slashes, as `split("/")` gives it for a text that is not empty. */
  function Components(text: string): seq<string> {
    var pieces := Lines(text, IsSlash);
    seq(|pieces|, i requires 0 <= i < |pieces| =>
      if pieces[i] != [] && Last(pieces[i]) == '/' then Front(pieces[i]) else pieces[i])
    + if text != [] && Last(text) == '/' then [""] else []
  }

  predicate IsDotGit(component: string) {
    && |component| == 4 && component[0] == '.'
    && component[1] in ['g', 'G'] && component[2] in ['i', 'I'] && component[3] in ['t', 'T']
  }

  predicate IsSafeComponent(component: string) {
    component != "" && component != "." && component != ".." && !IsDotGit(component) && Utf8Length(component) <= 255
  }

  /** `_validate_repository_path` */
  predicate IsRepositoryPath(path: string, other: char -> bool) {
    && path != [] && Utf8Length(path) <= 1024
    && path[0] != '/' && '\\' !in path
    && path[0] != ' ' && Last(path) != ' '
    && (forall i :: 0 <= i < |path| ==> !IsControl(path[i], other))
    && (forall i :: 0 <= i < |Components(path)| ==> IsSafeComponent(Components(path)[i]))
  }

  /** `_canonical_repository_paths` */
  predicate IsCanonicalPaths(paths: seq<string>, minimum: nat, maximum: nat, other: char -> bool) {
    && minimum <= |paths| <= maximum
    && (forall i :: 0 <= i < |paths| ==> IsRepositoryPath(paths[i], other))
    && (forall i, j :: 0 <= i < j < |paths| ==> PathLess(paths[i], paths[j]))
  }
}

/** Ordinary paths are repository paths: components between slashes, and what they are made of. */
module PlainPaths {
  import opened LineSplitting
  import opened RepositoryPaths

  function Join(components: seq<string>): string
    requires components != []
  {
    if |components| == 1 then components[0] else Join(Front(components)) + "/" + Last(components)
  }

  /** No component is empty or holds a slash. */
  predicate AreComponents(components: seq<string>) {
    components != [] && forall i :: 0 <= i < |components| ==> components[i] != "" && '/' !in components[i]
  }

  /** The components with the slash that ends each but the last. */
  function Pieces(components: seq<string>): seq<string> {
    seq(|components|, i requires 0 <= i < |components| => if i < |components| - 1 then components[i] + "/" else components[i])
  }

  lemma {:induction false} FlattenMore(parts: seq<string>, last: string)
    ensures Flatten(parts + [last]) == Flatten(parts) + last
  {
    FlattenAppend(parts, [last]);
    FlattenSingle(last);
  }

  /** The last piece gets its slash, and another piece follows. */
  lemma {:induction false} OneMorePiece(parts: seq<string>, before: string, last: string)
    ensures Flatten(parts + [before + "/"] + [last]) == Flatten(parts + [before]) + "/" + last
  {
    FlattenMore(parts + [before + "/"], last);
    FlattenMore(parts, before + "/");
    FlattenMore(parts, before);
  }

  lemma {:induction false} PiecesMore(components: seq<string>)
    requires |components| > 1
    ensures
      var pieces := Pieces(Front(components));
      && pieces != [] && Pieces(components) == Front(pieces) + [Last(pieces) + "/"] + [Last(components)]
      && pieces == Front(pieces) + [Last(pieces)]
  {
  }

  lemma {:induction false} PiecesFlatten(components: seq<string>)
    requires components != []
    ensures Flatten(Pieces(components)) == Join(components)
  {
    if |components| == 1 {
      assert Pieces(components) == [components[0]];
      FlattenSingle(components[0]);
    } else {
      var pieces := Pieces(Front(components));
      PiecesFlatten(Front(components));
      PiecesMore(components);
      OneMorePiece(Front(pieces), Last(pieces), Last(components));
    }
  }

  lemma {:induction false} FlattenSingle(text: string)
    ensures Flatten([text]) == text
  {
    assert [text][1..] == [];
  }

  lemma {:induction false} PiecesAreLines(components: seq<string>)
    requires AreComponents(components)
    ensures WellSplit(Pieces(components), IsSlash)
  {
    var pieces := Pieces(components);
    forall i | 0 <= i < |pieces| ensures IsLine(pieces[i], IsSlash) && (i < |pieces| - 1 ==> IsSlash(Last(pieces[i]))) {
      assert components[i] != "" && '/' !in components[i];
      assert forall k :: 0 <= k < |components[i]| ==> pieces[i][k] == components[i][k];
    }
  }

  /** Splitting at slashes undoes joining. */
  lemma {:induction false} SplitUndoesJoin(components: seq<string>)
    requires AreComponents(components)
    ensures Join(components) != "" && Components(Join(components)) == components
  {
    var pieces, text, n := Pieces(components), Join(components), |components|;
    PiecesAreLines(components);
    PiecesFlatten(components);
    LinesUnique(pieces, IsSlash);
    JoinEnds(components);
    forall i | 0 <= i < n
      ensures (if pieces[i] != [] && Last(pieces[i]) == '/' then Front(pieces[i]) else pieces[i]) == components[i]
    {
      assert components[i] != "" && '/' !in components[i];
      if i < n - 1 {
        assert Front(components[i] + "/") == components[i];
      }
    }
  }

  lemma {:induction false} JoinEnds(components: seq<string>)
    requires AreComponents(components)
    ensures Join(components) != "" && Join(components)[0] == components[0][0] && Last(Join(components)) == Last(Last(components))
    ensures components[0][0] != '/' && Last(Last(components)) != '/'
  {
    assert components[0] != "" && '/' !in components[0];
    assert components[|components| - 1] != "" && '/' !in components[|components| - 1];
    if |components| > 1 {
      var front := Front(components);
      assert forall i :: 0 <= i < |front| ==> front[i] == components[i];
      JoinEnds(front);
    }
  }

  // ----- plain components

  predicate IsPlainChar(c: char) { 'a' <= c <= 'z' || 'A' <= c <= 'Z' || '0' <= c <= '9' || c == '-' || c == '_' || c == '.' }

  predicate IsGitName(component: string) {
    |component| == 4 && component[0] == '.' && component[1] in "gG" && component[2] in "iI" && component[3] in "tT"
  }

  /** Letters, digits, "-", "_" and ".", but not a name that means something else. */
  predicate IsPlainComponent(component: string) {
    && component != "" && component != "." && component != ".." && |component| <= 255
    && !IsGitName(component)
    && forall k :: 0 <= k < |component| ==> IsPlainChar(component[k])
  }

  predicate ArePlain(components: seq<string>) {
    components != [] && forall i :: 0 <= i < |components| ==> IsPlainComponent(components[i])
  }

  predicate IsPlainText(text: string) { forall k :: 0 <= k < |text| ==> IsPlainChar(text[k]) || text[k] == '/' }

  lemma {:induction false} JoinIsPlain(components: seq<string>)
    requires ArePlain(components)
    ensures IsPlainText(Join(components))
  {
    assert IsPlainComponent(components[|components| - 1]);
    if |components| > 1 {
      var front := Front(components);
      assert forall i :: 0 <= i < |front| ==> front[i] == components[i];
      JoinIsPlain(front);
    }
  }

  lemma {:induction false} PlainLength(text: string)
    requires IsPlainText(text)
    ensures Utf8Length(text) == |text|
  {
    if text != "" {
      PlainLength(Front(text));
      assert IsPlainChar(text[|text| - 1]) || text[|text| - 1] == '/';
    }
  }

  lemma {:induction false} PlainIsSafe(component: string)
    requires IsPlainComponent(component)
    ensures IsSafeComponent(component) && component != "" && '/' !in component
  {
    assert "gG" == ['g', 'G'] && "iI" == ['i', 'I'] && "tT" == ['t', 'T'];
    PlainLength(component);
    forall k | 0 <= k < |component| ensures component[k] != '/' {
      assert IsPlainChar(component[k]);
    }
  }

  /** A path of plain components, not too long, is a repository path. */
  lemma {:induction false} PlainPathIsAccepted(components: seq<string>, other: char -> bool)
    requires ArePlain(components) && |Join(components)| <= 1024
    requires forall c :: IsPlainChar(c) || c == '/' ==> !other(c)
    ensures IsRepositoryPath(Join(components), other)
  {
    var path := Join(components);
    forall i | 0 <= i < |components| ensures IsSafeComponent(components[i]) && components[i] != "" && '/' !in components[i] {
      PlainIsSafe(components[i]);
    }
    SplitUndoesJoin(components);
    JoinEnds(components);
    JoinIsPlain(components);
    PlainLength(path);
    forall k | 0 <= k < |path| ensures !IsControl(path[k], other) && path[k] != '\\' && path[k] != ' ' {
      assert IsPlainChar(path[k]) || path[k] == '/';
    }
  }

  // ----- all paths

  /** The path is made of these components, none of which means something else, and of characters that may
      stand in a path. */
  predicate IsMadeOf(path: string, components: seq<string>, other: char -> bool) {
    && AreComponents(components) && path == Join(components) && Utf8Length(path) <= 1024
    && (forall i :: 0 <= i < |components| ==>
         components[i] !in {".", ".."} && !IsGitName(components[i]) && Utf8Length(components[i]) <= 255)
    && (forall k :: 0 <= k < |path| ==> path[k] != '\\' && !IsControl(path[k], other))
    && path != "" && path[0] != ' ' && Last(path) != ' '
  }

  lemma {:induction false} EndsEmpty(path: string)
    requires path != "" && Last(path) == '/'
    ensures exists i :: 0 <= i < |Components(path)| && Components(path)[i] == ""
  {
    assert Components(path)[|Lines(path, IsSlash)|] == "";
  }

  /** A component and its piece. */
  predicate AreTwins(component: string, piece: string, isLast: bool) {
    component != "" && '/' !in component && piece == if isLast then component else component + "/"
  }

  /** What becomes of one piece. */
  function Stripped(piece: string): string { if piece != [] && Last(piece) == '/' then Front(piece) else piece }

  lemma {:induction false} StrippedIs(piece: string, isLast: bool)
    requires IsLine(piece, IsSlash) && (Last(piece) == '/' <==> !isLast) && Stripped(piece) != ""
    ensures AreTwins(Stripped(piece), piece, isLast)
  {
    var component := Stripped(piece);
    assert forall k :: 0 <= k < |component| ==> component[k] == piece[k];
    if !isLast {
      assert piece == Front(piece) + ['/'];
    }
  }

  lemma {:induction false} ComponentsAre(path: string)
    requires path != "" && Last(path) != '/'
    ensures |Components(path)| == |Lines(path, IsSlash)|
    ensures forall i :: 0 <= i < |Lines(path, IsSlash)| ==> Components(path)[i] == Stripped(Lines(path, IsSlash)[i])
  {
  }

  lemma {:induction false} PieceEnds(path: string, i: nat)
    requires path != "" && Last(path) != '/' && i < |Lines(path, IsSlash)|
    ensures
      var pieces := Lines(path, IsSlash);
      IsLine(pieces[i], IsSlash) && (Last(pieces[i]) == '/' <==> i < |pieces| - 1)
  {
    var pieces := Lines(path, IsSlash);
    LinesSound(path, IsSlash);
    assert IsLine(pieces[i], IsSlash);
    if i == |pieces| - 1 {
      LastPiece(path, pieces);
    }
  }

  lemma {:induction false} TwinsAre(path: string, i: nat)
    requires path != "" && Last(path) != '/' && i < |Lines(path, IsSlash)| && Stripped(Lines(path, IsSlash)[i]) != ""
    ensures
      var pieces := Lines(path, IsSlash);
      AreTwins(Stripped(pieces[i]), pieces[i], i == |pieces| - 1)
  {
    PieceEnds(path, i);
    StrippedIs(Lines(path, IsSlash)[i], i == |Lines(path, IsSlash)| - 1);
  }

  lemma {:induction false} AllTwins(components: seq<string>, pieces: seq<string>)
    requires components != [] && |components| == |pieces|
    requires forall i :: 0 <= i < |pieces| ==> AreTwins(components[i], pieces[i], i == |pieces| - 1)
    ensures AreComponents(components) && Pieces(components) == pieces
  {
  }

  lemma {:induction false} PiecesAreOf(path: string)
    requires path != "" && Last(path) != '/' && forall i :: 0 <= i < |Components(path)| ==> Components(path)[i] != ""
    ensures AreComponents(Components(path)) && Join(Components(path)) == path
  {
    var pieces, components := Lines(path, IsSlash), Components(path);
    ComponentsAre(path);
    LinesSound(path, IsSlash);
    forall i | 0 <= i < |pieces| ensures AreTwins(components[i], pieces[i], i == |pieces| - 1) {
      assert components[i] != "";
      TwinsAre(path, i);
    }
    AllTwins(components, pieces);
    PiecesFlatten(components);
  }

  /** The last piece of a text ends as the text does. */
  lemma {:induction false} LastPiece(path: string, pieces: seq<string>)
    requires path != "" && Flatten(pieces) == path && pieces != [] && Last(pieces) != ""
    ensures Last(Last(pieces)) == Last(path)
  {
    assert pieces == Front(pieces) + [Last(pieces)];
    FlattenMore(Front(pieces), Last(pieces));
  }

  /** The repository paths are exactly the texts made of such components. */
  lemma {:induction false} PathExactly(path: string, other: char -> bool)
    ensures IsRepositoryPath(path, other) <==> exists components :: IsMadeOf(path, components, other)
  {
    if IsRepositoryPath(path, other) {
      PathIsMade(path, other);
    }
    if components :| IsMadeOf(path, components, other) {
      MadeIsPath(path, components, other);
    }
  }

  lemma {:induction false} SafeIs(component: string)
    ensures IsSafeComponent(component) <==> component !in {"", ".", ".."} && !IsGitName(component) && Utf8Length(component) <= 255
  {
    assert "gG" == ['g', 'G'] && "iI" == ['i', 'I'] && "tT" == ['t', 'T'];
  }

  lemma {:induction false} AreSafe(components: seq<string>)
    requires forall i :: 0 <= i < |components| ==> IsSafeComponent(components[i])
    ensures forall i :: 0 <= i < |components| ==>
      components[i] !in {"", ".", ".."} && !IsGitName(components[i]) && Utf8Length(components[i]) <= 255
  {
    forall i | 0 <= i < |components|
      ensures components[i] !in {"", ".", ".."} && !IsGitName(components[i]) && Utf8Length(components[i]) <= 255
    {
      SafeIs(components[i]);
    }
  }

  lemma {:induction false} EndsWell(path: string, other: char -> bool)
    requires IsRepositoryPath(path, other)
    ensures Last(path) != '/' && forall i :: 0 <= i < |Components(path)| ==> Components(path)[i] != ""
  {
    if Last(path) == '/' {
      EndsEmpty(path);
    }
  }

  lemma {:induction false} PathIsMade(path: string, other: char -> bool)
    requires IsRepositoryPath(path, other)
    ensures IsMadeOf(path, Components(path), other)
  {
    EndsWell(path, other);
    AreSafe(Components(path));
    PiecesAreOf(path);
  }

  lemma {:induction false} MadeIsPath(path: string, components: seq<string>, other: char -> bool)
    requires IsMadeOf(path, components, other)
    ensures IsRepositoryPath(path, other)
  {
    SplitUndoesJoin(components);
    JoinEnds(components);
    forall i | 0 <= i < |components| ensures IsSafeComponent(components[i]) {
      SafeIs(components[i]);
    }
  }
}

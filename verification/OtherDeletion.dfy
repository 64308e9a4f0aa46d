/** Two texts may have several diffs. One that shows some lines of a file as deleted and the others as
    context is accepted exactly when the protected lines are among the deleted ones; where the lines
    of a key and the first of another leave the same text, the scan protects the ones and a diff may
    delete the others. */
module OtherDeletion {
  import opened LineSplitting
  import opened HunkHeaders
  import opened MarkerPairing
  import opened PrivateKeyRanges
  import opened RepositoryPaths
  import Redaction = DiffRedaction
  import opened DiffGrammar
  import opened DiffAcceptance
  import opened CanonicalDiff
  import opened AcceptedHeads
  import opened DashedKey

  /** The three lines of a key and the first of another. */
  function TwoKeys(begin: string, middle: string, end: string): string { KeyText(begin, middle, end) + (begin + "\n") }

  lemma {:induction false} TwoKeysLines(begin: string, middle: string, end: string)
    requires '\n' !in begin && '\n' !in middle && '\n' !in end
    ensures LfLines(TwoKeys(begin, middle, end)) == [begin + "\n", middle + "\n", end + "\n"] + [begin + "\n"]
  {
    var key := KeyText(begin, middle, end);
    KeyLines(begin, middle, end);
    assert Last(key) == '\n';
    LinesConcat(key, begin + "\n", IsNewline);
    IsOneLine(begin);
    LinesOfOne(begin + "\n");
  }

  lemma {:induction false} LinesOfOne(line: string)
    requires IsLine(line, IsNewline) && Last(line) == '\n'
    ensures LfLines(line) == [line]
  {
    assert [line][1..] == [] && Flatten([line]) == line;
    LinesUnique([line], IsNewline);
  }

  /** A BEGIN that comes last pairs with nothing. */
  lemma {:induction false} LastBegin(markers: seq<Tagged>, line: nat, name: string, n: nat)
    ensures IsProtected(markers + [Tagged(line, Begin(name))], n) <==> IsProtected(markers, n)
  {
    var more := markers + [Tagged(line, Begin(name))];
    assert Front(more) == markers;
    forall other ensures Fifo(more, other).pairs == Fifo(markers, other).pairs {
    }
    forall other, k ensures Covers(more, other, k, n) <==> Covers(markers, other, k, n) {
      IndicesInRange(markers, other);
    }
  }

  // ----- a file shown whole

  function SignOf(n: nat, removed: set<nat>): char { if n in removed then '-' else ' ' }

  /** The lines of a file in one hunk, those with a number in `removed` as deletions. */
  function Shown(lines: seq<string>, removed: set<nat>): seq<string> {
    if lines == [] then [] else Shown(Front(lines), removed) + [[SignOf(|lines|, removed)] + Last(lines)]
  }

  /** The text on one side of a hunk: context, and the lines with the sign. */
  function Side(body: seq<string>, sign: char): seq<string> {
    if body == [] then []
    else Side(Front(body), sign) + if Last(body) != [] && Last(body)[0] in [' ', sign] then [Last(body)[1..]] else []
  }

  lemma {:induction false} SignedLine(sign: char, line: string)
    requires sign in [' ', '-']
    ensures IsContent([sign] + line) && [sign] + line != Redaction.MARKER && ([sign] + line)[1..] == line
  {
    assert ([sign] + line)[0] == sign && Redaction.MARKER[0] == '\\';
  }

  /** A hunk that shows a whole file is well formed, with the counts of the two texts. */
  lemma {:induction false} ShownFits(lines: seq<string>, removed: set<nat>)
    ensures BodyOk(Shown(lines, removed))
    ensures OldLines(Shown(lines, removed)) == |lines| && NewLines(Shown(lines, removed)) == |Kept(lines, removed)|
  {
    if lines != [] {
      var line := [SignOf(|lines|, removed)] + Last(lines);
      ShownFits(Front(lines), removed);
      SignedLine(line[0], Last(lines));
      BodyMore(Shown(Front(lines), removed), line);
    }
  }

  /** Its two sides are the file and the file without the removed lines. */
  lemma {:induction false} ShownSides(lines: seq<string>, removed: set<nat>)
    ensures Side(Shown(lines, removed), '-') == lines && Side(Shown(lines, removed), '+') == Kept(lines, removed)
  {
    if lines != [] {
      var line := [SignOf(|lines|, removed)] + Last(lines);
      ShownSides(Front(lines), removed);
      SignedLine(line[0], Last(lines));
      SideMore(Shown(Front(lines), removed), line, '-');
      SideMore(Shown(Front(lines), removed), line, '+');
      Rejoined(lines);
    }
  }

  lemma {:induction false} SideMore(body: seq<string>, line: string, sign: char)
    ensures Side(body + [line], sign) == Side(body, sign) + if line != [] && line[0] in [' ', sign] then [line[1..]] else []
  {
    assert Front(body + [line]) == body && Last(body + [line]) == line;
  }

  lemma {:induction false} ShownTouches(lines: seq<string>, removed: set<nat>, sign: char, n: nat)
    ensures BodyTouches(Shown(lines, removed), 1, sign, n) <==> 1 <= n <= |lines| && sign == SignOf(n, removed)
  {
    if lines != [] {
      var front, line := Shown(Front(lines), removed), [SignOf(|lines|, removed)] + Last(lines);
      ShownTouches(Front(lines), removed, sign, n);
      ShownFits(Front(lines), removed);
      BodyTouchesMore(front, line, 1, sign, n);
      assert line[0] == SignOf(|lines|, removed);
    }
  }

  function WholeCoordinates(lines: seq<string>, removed: set<nat>): Coordinates {
    Coordinates(1, |lines|, if Kept(lines, removed) == [] then 0 else 1, |Kept(lines, removed)|)
  }

  function WholeDiff(heads: Heads, lines: seq<string>, removed: set<nat>): seq<DiffFile> {
    var c := WholeCoordinates(lines, removed);
    [DiffFile(heads, [DiffHunk(PrintHeader(c, false, false) + "\n", c, Shown(lines, removed))])]
  }

  lemma {:induction false} HeaderStarts(c: Coordinates)
    requires c.oldStart > 0 && c.oldCount > 0 && (c.newCount > 0 ==> c.newStart > 0)
    ensures
      var header := PrintHeader(c, false, false) + "\n";
      "@@ " <= header && Redaction.HunkStart(header) == Some(c)
  {
    var text := PrintHeader(c, false, false);
    ParsePrintedHeader(c, false, false);
    assert Front(text + "\n") == text;
  }

  lemma {:induction false} OneHunkOk(hunk: DiffHunk, lexer: Lexer)
    requires HeaderOk(hunk, lexer) && BodyFits(hunk) && Complete(hunk)
    ensures HunksOk([hunk], lexer)
  {
    assert Front([hunk]) == [];
  }

  lemma {:induction false} OneFileOk(file: DiffFile, lexer: Lexer)
    requires HeadsOk(file.heads, None, lexer) && file.hunks != [] && HunksOk(file.hunks, lexer)
    ensures FilesOk([file], lexer)
  {
    assert Front([file]) == [];
  }

  lemma {:induction false} WholeDiffIsCanonical(heads: Heads, lines: seq<string>, removed: set<nat>, other: char -> bool)
    requires HeadsOk(heads, None, GitLexer(other)) && lines != []
    ensures IsCanonical(WholeDiff(heads, lines, removed), other)
  {
    var file := WholeDiff(heads, lines, removed)[0];
    ShownFits(lines, removed);
    HeaderStarts(WholeCoordinates(lines, removed));
    OneHunkOk(file.hunks[0], GitLexer(other));
    OneFileOk(file, GitLexer(other));
  }

  lemma {:induction false} WholeDiffTouches(heads: Heads, lines: seq<string>, removed: set<nat>, sign: char, path: string, n: nat)
    ensures FilesTouch(WholeDiff(heads, lines, removed), sign, path, n) <==>
      heads.path == path && BodyTouches(Shown(lines, removed), 1, sign, n)
  {
    var files := WholeDiff(heads, lines, removed);
    var hunks := files[0].hunks;
    assert Front(files) == [] && Last(files) == files[0] && Front(hunks) == [] && Last(hunks) == hunks[0];
    assert HunksTouch(hunks, sign, n) <==> BodyTouches(Shown(lines, removed), 1, sign, n);
  }

  /** A diff that shows a file whole deletes the protected lines exactly when they are lines of the
      file that it removes. */
  lemma {:induction false} WholeDiffDeletes(heads: Heads, lines: seq<string>, removed: set<nat>, protected: set<nat>)
    ensures DeletesProtected(WholeDiff(heads, lines, removed), map[heads.path := protected]) <==>
      forall n :: n in protected ==> 1 <= n <= |lines| && n in removed
  {
    var files, protection := WholeDiff(heads, lines, removed), map[heads.path := protected];
    forall path, n: nat
      ensures FilesTouch(files, '-', path, n) <==> path == heads.path && 1 <= n <= |lines| && n in removed
      ensures FilesTouch(files, ' ', path, n) <==> path == heads.path && 1 <= n <= |lines| && n !in removed
    {
      WholeDiffTouches(heads, lines, removed, '-', path, n);
      WholeDiffTouches(heads, lines, removed, ' ', path, n);
      ShownTouches(lines, removed, '-', n);
      ShownTouches(lines, removed, ' ', n);
    }
    if DeletesProtected(files, protection) {
      forall n | n in protected ensures 1 <= n <= |lines| && n in removed {
        assert Redaction.IsProtected(protection, heads.path, n);
      }
    }
  }

  /** It is accepted exactly then. */
  lemma {:induction false} WholeDiffAccepted(heads: Heads, lines: seq<string>, removed: set<nat>, protected: set<nat>, task: Redaction.Task)
    requires HeadsOk(heads, None, GitLexer(task.otherControl)) && lines != [] && task.protection == map[heads.path := protected]
    ensures Redaction.Accepts(SpellFiles(WholeDiff(heads, lines, removed)), task) <==>
      forall n :: n in protected ==> 1 <= n <= |lines| && n in removed
  {
    var files := WholeDiff(heads, lines, removed);
    WholeDiffIsCanonical(heads, lines, removed, task.otherControl);
    WholeDiffDeletes(heads, lines, removed, protected);
    AcceptedIffDeletes(files, task);
  }

  lemma {:induction false} AcceptedIffDeletes(files: seq<DiffFile>, task: Redaction.Task)
    requires IsCanonical(files, task.otherControl)
    ensures Redaction.Accepts(SpellFiles(files), task) <==> DeletesProtected(files, task.protection)
  {
    if Redaction.Accepts(SpellFiles(files), task) {
      var read := AcceptedIsCanonical(SpellFiles(files), task);
      DiffsUnique(files, read, task.otherControl);
    }
    if DeletesProtected(files, task.protection) {
      CanonicalIsAccepted(files, task);
    }
  }

  /** For every repository path, however it is written, new or not, every text and every set of lines
      that contains the protected ones: the diff that deletes those lines is accepted. */
  lemma {:induction false} EveryDeletionIsAccepted(path: string, isNew: bool, quoted: bool, oldName: string, newName: string, suffix: string,
      lines: seq<string>, removed: set<nat>, protected: set<nat>, task: Redaction.Task)
    requires IsRepositoryPath(path, task.otherControl) && (!quoted ==> '"' !in path) && AreNames(oldName, newName) && IsMode(suffix)
    requires lines != [] && task.protection == map[path := protected]
    requires protected <= removed && forall n :: n in protected ==> 1 <= n <= |lines|
    ensures
      var heads := HeadsFor(path, isNew, quoted, IndexText(oldName, newName, suffix));
      Redaction.Accepts(SpellFiles(WholeDiff(heads, lines, removed)), task)
  {
    EveryPathIsAccepted(path, isNew, quoted, oldName, newName, suffix, task.otherControl);
    WholeDiffPasses(HeadsFor(path, isNew, quoted, IndexText(oldName, newName, suffix)), lines, removed, protected, task);
  }

  // ----- the key

  lemma {:induction false} TwoKeysCovered(begin: string, middle: string, end: string, name: string, find: string -> seq<Marker>)
    requires '\n' !in begin && '\n' !in middle && '\n' !in end
    requires find(begin) == [Begin(name)] && find(middle) == [] && find(end) == [End(name)]
    ensures CoversProtected(TwoKeys(begin, middle, end), [Range(1, 3)], find)
  {
    var key := KeyText(begin, middle, end);
    KeyIsCovered(begin, middle, end, name, find);
    TwoKeysScan(begin, middle, end, name, find);
    forall n: nat ensures InRanges([Range(1, 3)], n) <==> IsProtected(Scan(key, find) + [Tagged(4, Begin(name))], n) {
      LastBegin(Scan(key, find), 4, name, n);
    }
  }

  lemma {:induction false} TwoKeysScan(begin: string, middle: string, end: string, name: string, find: string -> seq<Marker>)
    requires '\n' !in begin && '\n' !in middle && '\n' !in end && find(begin) == [Begin(name)]
    ensures Scan(TwoKeys(begin, middle, end), find) == Scan(KeyText(begin, middle, end), find) + [Tagged(4, Begin(name))]
  {
    var key, lines := LfLines(KeyText(begin, middle, end)), LfLines(TwoKeys(begin, middle, end));
    KeyLines(begin, middle, end);
    TwoKeysLines(begin, middle, end);
    IsOneLine(begin);
    var markers := MarkersOf(lines, find);
    assert markers == MarkersOf(key, find) + [[Begin(name)]];
    assert Front(markers) == MarkersOf(key, find) && Last(markers) == [Begin(name)];
    TagOne(4, Begin(name));
  }

  /** Lines BEGIN, key, END, BEGIN. The scan protects lines 1 to 3. Removing lines 2 to 4 leaves the
      same text as removing those, and a diff may show it so; its redaction is refused. */
  lemma {:induction false} OtherDeletionRefused(heads: Heads, begin: string, middle: string, end: string, name: string,
      find: string -> seq<Marker>, task: Redaction.Task)
    requires '\n' !in begin && '\n' !in middle && '\n' !in end
    requires find(begin) == [Begin(name)] && find(middle) == [] && find(end) == [End(name)]
    requires HeadsOk(heads, None, GitLexer(task.otherControl)) && task.protection == map[heads.path := {1, 2, 3}]
    ensures
      var text := TwoKeys(begin, middle, end);
      var lines := LfLines(text);
      && CoversProtected(text, [Range(1, 3)], find)
      && Kept(lines, {1, 2, 3}) == Kept(lines, {2, 3, 4}) == LfLines(RemoveRanges(text, [Range(1, 3)]))
      && Redaction.Accepts(SpellFiles(WholeDiff(heads, lines, {1, 2, 3})), task)
      && IsCanonical(WholeDiff(heads, lines, {2, 3, 4}), task.otherControl)
      && !Redaction.Accepts(SpellFiles(WholeDiff(heads, lines, {2, 3, 4})), task)
  {
    var text := TwoKeys(begin, middle, end);
    var lines := LfLines(text);
    TwoKeysCovered(begin, middle, end, name, find);
    TwoKeysTexts(begin, middle, end);
    WholeDiffPasses(heads, lines, {1, 2, 3}, {1, 2, 3}, task);
    WholeDiffFails(heads, lines, {2, 3, 4}, {1, 2, 3}, 1, task);
  }

  lemma {:induction false} TwoKeysTexts(begin: string, middle: string, end: string)
    requires '\n' !in begin && '\n' !in middle && '\n' !in end
    ensures
      var text := TwoKeys(begin, middle, end);
      && |LfLines(text)| == 4
      && Kept(LfLines(text), {1, 2, 3}) == Kept(LfLines(text), {2, 3, 4}) == LfLines(RemoveRanges(text, [Range(1, 3)]))
  {
    var text := TwoKeys(begin, middle, end);
    TwoKeysLines(begin, middle, end);
    TwoKeysKept(LfLines(text), begin + "\n", middle + "\n", end + "\n");
    RemovedLines(text, [Range(1, 3)]);
    ThreeLines();
  }

  lemma {:induction false} WholeDiffPasses(heads: Heads, lines: seq<string>, removed: set<nat>, protected: set<nat>, task: Redaction.Task)
    requires HeadsOk(heads, None, GitLexer(task.otherControl)) && lines != [] && task.protection == map[heads.path := protected]
    requires protected <= removed && forall n :: n in protected ==> 1 <= n <= |lines|
    ensures Redaction.Accepts(SpellFiles(WholeDiff(heads, lines, removed)), task)
  {
    WholeDiffAccepted(heads, lines, removed, protected, task);
  }

  lemma {:induction false} WholeDiffFails(heads: Heads, lines: seq<string>, removed: set<nat>, protected: set<nat>, n: nat, task: Redaction.Task)
    requires HeadsOk(heads, None, GitLexer(task.otherControl)) && lines != [] && task.protection == map[heads.path := protected]
    requires n in protected && n !in removed
    ensures IsCanonical(WholeDiff(heads, lines, removed), task.otherControl)
    ensures !Redaction.Accepts(SpellFiles(WholeDiff(heads, lines, removed)), task)
  {
    WholeDiffIsCanonical(heads, lines, removed, task.otherControl);
    WholeDiffAccepted(heads, lines, removed, protected, task);
  }

  lemma {:induction false} ThreeLines()
    ensures LineSet([Range(1, 3)]) == {1, 2, 3}
  {
    forall n: nat ensures n in LineSet([Range(1, 3)]) <==> n in {1, 2, 3} {
      assert InRanges([Range(1, 3)], n) <==> InRange([Range(1, 3)][0], n);
    }
  }

  lemma {:induction false} TwoKeysKept(lines: seq<string>, begin: string, middle: string, end: string)
    requires lines == [begin, middle, end] + [begin]
    ensures Kept(lines, {1, 2, 3}) == [begin] && Kept(lines, {2, 3, 4}) == [begin]
  {
    assert Front(lines) == [begin, middle, end] && Front([begin, middle, end]) == [begin, middle];
    assert Front([begin, middle]) == [begin] && Front([begin]) == [];
    forall removed: set<nat>
      ensures Kept([begin, middle, end], removed) ==
        (if 1 in removed then [] else [begin]) + (if 2 in removed then [] else [middle]) + (if 3 in removed then [] else [end])
    {
      assert Kept([begin], removed) == if 1 in removed then [] else [begin];
      assert Kept([begin, middle], removed) == Kept([begin], removed) + if 2 in removed then [] else [middle];
    }
  }
}

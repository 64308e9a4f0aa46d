/** The redactor accepts exactly the canonical diffs that delete every protected line and keep none
    as context, and no lines spell two canonical diffs. */
module CanonicalDiff {
  import opened LineSplitting
  import opened GitDiffHeaders
  import opened DiffRedaction
  import opened DiffGrammar
  import opened DiffAcceptance

  // ----- the old lines that one more line touches

  lemma {:induction false} BodyTouchesMore(body: seq<string>, line: string, start: nat, sign: char, n: nat)
    ensures BodyTouches(body + [line], start, sign, n) <==>
      BodyTouches(body, start, sign, n) || LineTouches(line, start + OldLines(body), sign, n)
  {
    assert Front(body + [line]) == body && Last(body + [line]) == line;
  }

  lemma {:induction false} LongerTouches(hunks: seq<DiffHunk>, line: string, sign: char, n: nat)
    requires hunks != []
    ensures HunksTouch(Longer(hunks, line), sign, n) <==> HunksTouch(hunks, sign, n) || LineTouches(line, NextOld(Last(hunks)), sign, n)
  {
    LastLonger(hunks, line);
    BodyTouchesMore(Last(hunks).body, line, Last(hunks).c.oldStart, sign, n);
  }

  lemma {:induction false} StartTouches(hunks: seq<DiffHunk>, hunk: DiffHunk, sign: char, n: nat)
    requires hunk.body == []
    ensures HunksTouch(hunks + [hunk], sign, n) <==> HunksTouch(hunks, sign, n)
  {
    assert Front(hunks + [hunk]) == hunks && Last(hunks + [hunk]) == hunk;
  }

  lemma {:induction false} FileTouches(files: seq<DiffFile>, file: DiffFile, sign: char, path: string, n: nat)
    ensures FilesTouch(files + [file], sign, path, n) <==>
      FilesTouch(files, sign, path, n) || (file.heads.path == path && HunksTouch(file.hunks, sign, n))
  {
    assert Front(files + [file]) == files && Last(files + [file]) == file;
  }

  lemma {:induction false} TouchesMore(r: Reading, line: string, lexer: Lexer, sign: char, path: string, n: nat)
    ensures Touches(Read(r, line, lexer), sign, path, n) <==> Touches(r, sign, path, n) || NewTouch(r, line, sign, path, n)
  {
    if r.draft.Hunks? {
      var file := r.draft.file;
      if GoesOn(file, line) {
        LongerTouches(file.hunks, line, sign, n);
      } else if "@@ " <= line {
        StartTouches(file.hunks, StartedHunk(line, lexer), sign, n);
      } else {
        FileTouches(r.files, file, sign, path, n);
      }
    } else if r.draft.OldLine? {
      assert !HunksTouch([], sign, n);
    }
  }

  lemma {:induction false} KeepsMore(r: Reading, line: string, lexer: Lexer, protection: Protection)
    ensures KeepsNone(Read(r, line, lexer), protection) <==> KeepsNone(r, protection) && !KeepsProtected(r, line, protection)
  {
    forall path, n: nat
      ensures Touches(Read(r, line, lexer), ' ', path, n) <==> Touches(r, ' ', path, n) || NewTouch(r, line, ' ', path, n)
    {
      TouchesMore(r, line, lexer, ' ', path, n);
    }
    if KeepsProtected(r, line, protection) {
      assert NewTouch(r, line, ' ', r.draft.file.heads.path, NextOld(Last(r.draft.file.hunks)));
    }
  }

  /** The coordinates met are the protected ones that the lines read delete. */
  ghost predicate SeenIs(seen: set<(string, nat)>, r: Reading, protection: Protection) {
    forall path, n: nat :: (path, n) in seen <==> IsProtected(protection, path, n) && Touches(r, '-', path, n)
  }

  lemma {:induction false} NewlySeenIs(state: State, r: Reading, line: string, protection: Protection, path: string, n: nat)
    requires IsAt(state, r)
    ensures (path, n) in NewlySeen(state, line, protection) <==> IsProtected(protection, path, n) && NewTouch(r, line, '-', path, n)
  {
    assert MARKER[0] == '\\';
  }

  lemma {:induction false} SeenMore(state: State, r: Reading, line: string, lexer: Lexer, protection: Protection)
    requires IsAt(state, r) && SeenIs(state.seen, r, protection)
    ensures SeenIs(state.seen + NewlySeen(state, line, protection), Read(r, line, lexer), protection)
  {
    forall path, n: nat
      ensures (path, n) in state.seen + NewlySeen(state, line, protection) <==>
        IsProtected(protection, path, n) && Touches(Read(r, line, lexer), '-', path, n)
    {
      TouchesMore(r, line, lexer, '-', path, n);
      NewlySeenIs(state, r, line, protection, path, n);
    }
  }

  // ----- what begins a canonical diff

  lemma {:induction false} LongerWasOk(hunks: seq<DiffHunk>, line: string, lexer: Lexer)
    requires hunks != [] && PartsOk(Longer(hunks, line), lexer)
    ensures PartsOk(hunks, lexer)
  {
    LastLonger(hunks, line);
    BodyMore(Last(hunks).body, line);
  }

  lemma {:induction false} StartWasOk(hunks: seq<DiffHunk>, hunk: DiffHunk, lexer: Lexer)
    requires PartsOk(hunks + [hunk], lexer)
    ensures PartsOk(hunks, lexer)
  {
    assert Front(hunks + [hunk]) == hunks;
  }

  lemma {:induction false} FileWasOk(files: seq<DiffFile>, file: DiffFile, lexer: Lexer)
    requires FilesOk(files + [file], lexer)
    ensures FilesOk(files, lexer) && HeadsOk(file.heads, LastPath(files), lexer) && PartsOk(file.hunks, lexer)
  {
    assert Front(files + [file]) == files && Last(files + [file]) == file;
  }

  lemma {:induction false} WasOk(r: Reading, line: string, lexer: Lexer)
    requires ReadingOk(Read(r, line, lexer), lexer)
    ensures ReadingOk(r, lexer)
  {
    if r.draft.Hunks? {
      var file := r.draft.file;
      if GoesOn(file, line) {
        LongerWasOk(file.hunks, line, lexer);
      } else if "@@ " <= line {
        StartWasOk(file.hunks, StartedHunk(line, lexer), lexer);
      } else {
        FileWasOk(r.files, file, lexer);
      }
    }
  }

  // ----- the automaton reads

  ghost predicate Begins(r: Reading, lexer: Lexer, protection: Protection) { ReadingOk(r, lexer) && KeepsNone(r, protection) }

  ghost predicate Follows(state: State, r: Reading, protection: Protection) { IsAt(state, r) && SeenIs(state.seen, r, protection) }

  lemma {:induction false} LineFollows(state: State, r: Reading, line: string, moved: Option<Move>, lexer: Lexer, protection: Protection)
    requires Begins(r, lexer, protection) && Follows(state, r, protection) && Matches(moved, r, line, lexer, protection)
    requires moved.Some? ==> moved.value.state.seen == state.seen + NewlySeen(state, line, protection)
    ensures moved.Some? <==> Begins(Read(r, line, lexer), lexer, protection)
    ensures moved.Some? ==> Follows(moved.value.state, Read(r, line, lexer), protection)
  {
    KeepsMore(r, line, lexer, protection);
    SeenMore(state, r, line, lexer, protection);
  }

  lemma {:induction false} Began(r: Reading, line: string, lexer: Lexer, protection: Protection)
    requires Begins(Read(r, line, lexer), lexer, protection)
    ensures Begins(r, lexer, protection)
  {
    WasOk(r, line, lexer);
    KeepsMore(r, line, lexer, protection);
  }

  /** The automaton runs through exactly the lines that begin a canonical diff. */
  lemma {:induction false} RunReads(lines: seq<string>, step: (State, string) -> Option<Move>, lexer: Lexer, protection: Protection)
    requires Mirrors(step, lexer, protection) && Discreet(step, protection)
    ensures Run(lines, step).Some? <==> Begins(ReadingOf(lines, Reader(lexer)), lexer, protection)
    ensures Run(lines, step).Some? ==> Follows(Run(lines, step).value.state, ReadingOf(lines, Reader(lexer)), protection)
  {
    if lines != [] {
      var front, line := Front(lines), Last(lines);
      var r := ReadingOf(front, Reader(lexer));
      RunReads(front, step, lexer, protection);
      if Run(front, step).Some? {
        var state := Run(front, step).value.state;
        LineFollows(state, r, line, step(state, line), lexer, protection);
      } else if Begins(Read(r, line, lexer), lexer, protection) {
        Began(r, line, lexer, protection);
      }
    }
  }

  // ----- the reading of what is spelled

  /** What the three kinds of marked lines have in front keeps them apart. */
  ghost predicate TellsApart(lexer: Lexer) {
    && !lexer.isIndex(NEW_MODE)
    && (forall line :: lexer.isFileLine(line) ==> line != MARKER && !("@@ " <= line))
  }

  lemma {:induction false} GitTellsApart(other: char -> bool)
    ensures TellsApart(GitLexer(other))
  {
    assert NEW_MODE[0] == 'n' && "index "[0] == 'i' && GIT_PREFIX[0] == 'd' && "@@ "[0] == '@' && MARKER[0] == '\\';
    assert NEW_MODE[..6][0] == 'n';
  }

  function HunksBefore(hunks: seq<DiffHunk>): seq<DiffHunk>
    requires hunks != []
  {
    if Last(hunks).body == [] then Front(hunks) else Front(hunks) + [Last(hunks).(body := Front(Last(hunks).body))]
  }

  /** The reading before its last line, and that line. */
  function Before(r: Reading): Reading {
    match r.draft
    case NoFile => r
    case GitLine(_) => if r.files == [] then NOTHING else Reading(Front(r.files), Hunks(Last(r.files)))
    case Mode(git) => r.(draft := GitLine(git))
    case Index(git, isNew, _) => r.(draft := if isNew then Mode(git) else GitLine(git))
    case OldLine(git, isNew, index, _) => r.(draft := Index(git, isNew, index))
    case Hunks(file) =>
      if file.hunks == [] then r.(draft := OldLine(file.heads.git, file.heads.isNew, file.heads.index, file.heads.oldHeader))
      else r.(draft := Hunks(file.(hunks := HunksBefore(file.hunks))))
  }

  function LastLine(r: Reading): string
    requires !r.draft.NoFile?
  {
    match r.draft
    case GitLine(git) => git
    case Mode(_) => NEW_MODE
    case Index(_, _, index) => index
    case OldLine(_, _, _, oldHeader) => oldHeader
    case Hunks(file) =>
      if file.hunks == [] then file.heads.newHeader
      else if Last(file.hunks).body == [] then Last(file.hunks).header else Last(Last(file.hunks).body)
  }

  /** Nothing has been read before the first file. */
  predicate IsReached(r: Reading) { r.draft.NoFile? ==> r.files == [] }

  lemma {:induction false} BeforeInHunk(hunks: seq<DiffHunk>, lexer: Lexer)
    requires hunks != [] && PartsOk(hunks, lexer) && Last(hunks).body != []
    ensures
      var before, line := HunksBefore(hunks), Last(Last(hunks).body);
      before != [] && PartsOk(before, lexer) && (!Complete(Last(before)) || line == MARKER) && Longer(before, line) == hunks
  {
    var hunk, before := Last(hunks), HunksBefore(hunks);
    var shorter, line := hunk.(body := Front(hunk.body)), Last(hunk.body);
    assert hunk.body == shorter.body + [line];
    BodyMore(shorter.body, line);
    assert Front(before) == Front(hunks) && Last(before) == shorter;
    Rejoined(hunk.body);
    assert WithLine(shorter, line) == hunk;
    assert hunks == Front(hunks) + [hunk];
  }

  lemma {:induction false} BeforeHunk(r: Reading, lexer: Lexer)
    requires ReadingOk(r, lexer) && r.draft.Hunks? && r.draft.file.hunks != [] && TellsApart(lexer)
    ensures ReadingOk(Before(r), lexer) && Read(Before(r), LastLine(r), lexer) == r
  {
    var file := r.draft.file;
    var hunk := Last(file.hunks);
    if hunk.body == [] {
      MarkerStarts(MARKER);
      assert hunk == StartedHunk(hunk.header, lexer);
      assert file.hunks == Front(file.hunks) + [hunk];
    } else {
      BeforeInHunk(file.hunks, lexer);
    }
  }

  lemma {:induction false} BeforeOk(r: Reading, lexer: Lexer)
    requires ReadingOk(r, lexer) && IsReached(r) && !r.draft.NoFile? && TellsApart(lexer)
    ensures ReadingOk(Before(r), lexer) && IsReached(Before(r)) && Read(Before(r), LastLine(r), lexer) == r
  {
    if r.draft.Hunks? && r.draft.file.hunks != [] {
      BeforeHunk(r, lexer);
    } else if r.draft.GitLine? && r.files != [] {
      BeforeFile(r, lexer);
    } else {
      BeforeHeader(r, lexer);
    }
  }

  lemma {:induction false} BeforeFile(r: Reading, lexer: Lexer)
    requires ReadingOk(r, lexer) && r.draft.GitLine? && r.files != [] && TellsApart(lexer)
    ensures ReadingOk(Before(r), lexer) && Read(Before(r), LastLine(r), lexer) == r
  {
    var file := Last(r.files);
    assert !GoesOn(file, r.draft.git);
    FrontAndLast(r.files);
  }

  lemma {:induction false} FrontAndLast(files: seq<DiffFile>)
    requires files != []
    ensures Front(files) + [Last(files)] == files
  {
  }

  lemma {:induction false} BeforeHeader(r: Reading, lexer: Lexer)
    requires ReadingOk(r, lexer) && !r.draft.NoFile? && (r.draft.Hunks? ==> r.draft.file.hunks == []) && (r.draft.GitLine? ==> r.files == [])
    requires TellsApart(lexer)
    ensures ReadingOk(Before(r), lexer) && IsReached(Before(r)) && Read(Before(r), LastLine(r), lexer) == r
  {
  }

  /** Reading the lines that spell the beginning of a canonical diff gives it back. */
  lemma {:induction false} ReadBack(r: Reading, lexer: Lexer)
    requires ReadingOk(r, lexer) && IsReached(r) && TellsApart(lexer)
    ensures ReadingOf(Spell(r), Reader(lexer)) == r
    decreases |Spell(r)|
  {
    if !r.draft.NoFile? {
      BeforeOk(r, lexer);
      SpellRead(Before(r), LastLine(r), lexer);
      ReadBack(Before(r), lexer);
      assert Front(Spell(r)) == Spell(Before(r));
    }
  }

  // ----- whole diffs

  /** The diff that a list of files is, as it is read. */
  function Whole(files: seq<DiffFile>): Reading
    requires files != []
  {
    Reading(Front(files), Hunks(Last(files)))
  }

  lemma {:induction false} SpellWhole(files: seq<DiffFile>)
    requires files != []
    ensures Spell(Whole(files)) == SpellFiles(files)
  {
  }

  /** No lines spell two canonical diffs. */
  lemma {:induction false} DiffsUnique(a: seq<DiffFile>, b: seq<DiffFile>, other: char -> bool)
    requires IsCanonical(a, other) && IsCanonical(b, other) && SpellFiles(a) == SpellFiles(b)
    ensures a == b
  {
    var lexer := GitLexer(other);
    GitTellsApart(other);
    WholeIsRead(a, lexer);
    WholeIsRead(b, lexer);
    WholeIsAll(a);
    WholeIsAll(b);
  }

  lemma {:induction false} WholeIsAll(files: seq<DiffFile>)
    requires files != []
    ensures Whole(files).files + [Whole(files).draft.file] == files
  {
  }

  lemma {:induction false} WholeIsRead(files: seq<DiffFile>, lexer: Lexer)
    requires files != [] && FilesOk(files, lexer) && TellsApart(lexer)
    ensures ReadingOf(SpellFiles(files), Reader(lexer)) == Whole(files) && ReadingOk(Whole(files), lexer)
  {
    SpellWhole(files);
    ReadBack(Whole(files), lexer);
  }

  /** The redactor accepts exactly the lines that spell a canonical diff in which every protected
      line is deleted and none is context. */
  lemma {:induction false} AcceptsExactly(lines: seq<string>, task: Task)
    ensures Accepts(lines, task) <==>
      exists files :: IsCanonical(files, task.otherControl) && SpellFiles(files) == lines && DeletesProtected(files, task.protection)
  {
    if Accepts(lines, task) {
      var files := AcceptedIsCanonical(lines, task);
    }
    if files :| IsCanonical(files, task.otherControl) && SpellFiles(files) == lines && DeletesProtected(files, task.protection) {
      CanonicalIsAccepted(files, task);
    }
  }

  lemma {:induction false} AcceptedIsCanonical(lines: seq<string>, task: Task) returns (files: seq<DiffFile>)
    requires Accepts(lines, task)
    ensures IsCanonical(files, task.otherControl) && SpellFiles(files) == lines && DeletesProtected(files, task.protection)
  {
    var lexer := GitLexer(task.otherControl);
    var r := ReadingOf(lines, Reader(lexer));
    StepperMirrors(task);
    StepperIsDiscreet(task);
    RunReads(lines, Stepper(task), lexer, task.protection);
    SpellReading(lines, lexer);
    EndsWhole(r, Run(lines, Stepper(task)).value.state, lexer);
    files := r.files + [r.draft.file];
    TouchesWhole(files);
    SpellWhole(files);
  }

  /** The automaton may stop where the last file is complete. */
  lemma {:induction false} EndsWhole(r: Reading, state: State, lexer: Lexer)
    requires ReadingOk(r, lexer) && IsAt(state, r) && AtEnd(state)
    ensures r.draft.Hunks?
    ensures
      var files := r.files + [r.draft.file];
      FilesOk(files, lexer) && Whole(files) == r
  {
    var files := r.files + [r.draft.file];
    assert Front(files) == r.files && Last(files) == r.draft.file;
  }

  lemma {:induction false} WholeEnds(files: seq<DiffFile>, state: State, lexer: Lexer)
    requires files != [] && FilesOk(files, lexer) && IsAt(state, Whole(files))
    ensures AtEnd(state)
  {
  }

  lemma {:induction false} TouchesWhole(files: seq<DiffFile>)
    requires files != []
    ensures forall sign, path, n: nat :: Touches(Whole(files), sign, path, n) <==> FilesTouch(files, sign, path, n)
  {
  }

  lemma {:induction false} CanonicalIsAccepted(files: seq<DiffFile>, task: Task)
    requires IsCanonical(files, task.otherControl) && DeletesProtected(files, task.protection)
    ensures Accepts(SpellFiles(files), task)
  {
    var lexer := GitLexer(task.otherControl);
    GitTellsApart(task.otherControl);
    WholeIsRead(files, lexer);
    TouchesWhole(files);
    StepperMirrors(task);
    StepperIsDiscreet(task);
    RunReads(SpellFiles(files), Stepper(task), lexer, task.protection);
    WholeEnds(files, Run(SpellFiles(files), Stepper(task)).value.state, lexer);
  }
}

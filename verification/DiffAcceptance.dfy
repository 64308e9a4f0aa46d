/** The redactor's automaton accepts exactly the canonical diffs that delete every protected line and
    keep none as context; no text spells two of them. */
module DiffAcceptance {
  import opened LineSplitting
  import opened RepositoryPaths
  import opened GitDiffHeaders
  import opened DiffRedaction
  import opened DiffGrammar

  // ----- where the automaton is

  function AtHunk(path: string, hunk: DiffHunk): At {
    if Complete(hunk) then Between(path, true, MayMark(hunk.body))
    else Inside(path, hunk.c, OldLines(hunk.body), NewLines(hunk.body), MayMark(hunk.body))
  }

  function AtOf(draft: Draft): At {
    match draft
    case NoFile => FileStart
    case GitLine(git) => Opened(git)
    case Mode(git) => Moded(git)
    case Index(git, _, _) => Indexed(git)
    case OldLine(git, _, _, oldHeader) => OldHeader(git, oldHeader)
    case Hunks(file) => if file.hunks == [] then Between(file.heads.path, false, false) else AtHunk(file.heads.path, Last(file.hunks))
  }

  function PathOf(r: Reading): Option<string> { if r.draft.Hunks? then Some(r.draft.file.heads.path) else LastPath(r.files) }

  predicate IsAt(state: State, r: Reading) { state.at == AtOf(r.draft) && state.previousPath == PathOf(r) }

  /** The old line that the next context or deletion of a hunk stands for. */
  function NextOld(hunk: DiffHunk): nat { hunk.c.oldStart + OldLines(hunk.body) }

  /** The line stands with this sign at old line `n`. */
  predicate NewTouch(r: Reading, line: string, sign: char, path: string, n: nat) {
    && r.draft.Hunks? && GoesOn(r.draft.file, line) && r.draft.file.heads.path == path
    && LineTouches(line, NextOld(Last(r.draft.file.hunks)), sign, n)
  }

  /** The line keeps a protected line. */
  predicate KeepsProtected(r: Reading, line: string, protection: Protection) {
    && r.draft.Hunks? && GoesOn(r.draft.file, line) && line != [] && line[0] == ' '
    && IsProtected(protection, r.draft.file.heads.path, NextOld(Last(r.draft.file.hunks)))
  }

  // ----- one line

  lemma {:induction false} BodyMore(body: seq<string>, line: string)
    ensures OldLines(body + [line]) == OldLines(body) + if line != [] && line[0] in [' ', '-'] then 1 else 0
    ensures NewLines(body + [line]) == NewLines(body) + if line != [] && line[0] in [' ', '+'] then 1 else 0
    ensures BodyOk(body + [line]) <==> BodyOk(body) && if line == MARKER then MayMark(body) else IsContent(line)
    ensures MayMark(body + [line]) <==> line != MARKER
  {
    assert Front(body + [line]) == body && Last(body + [line]) == line;
  }

  /** One line of a hunk that is not complete. */
  lemma {:induction false} InsideMore(state: State, path: string, hunk: DiffHunk, line: string, task: Task)
    requires BodyFits(hunk) && !Complete(hunk) && state.at == AtHunk(path, hunk)
    ensures StepInside(state, line, task).Some? <==>
      BodyFits(WithLine(hunk, line)) && !(line != [] && line[0] == ' ' && IsProtected(task.protection, path, NextOld(hunk)))
    ensures StepInside(state, line, task).Some? ==>
      var after := StepInside(state, line, task).value.state;
      after.at == AtHunk(path, WithLine(hunk, line)) && after.previousPath == state.previousPath
  {
    BodyMore(hunk.body, line);
    if line == MARKER {
      MarkerStarts(line);
    } else if IsContent(line) {
      ContentMore(state, path, hunk, line, line);
      ContentMore(state.(seen := state.seen + {(path, NextOld(hunk))}), path, hunk, line, SENTINEL_LINE);
    }
  }

  /** One content line, shown as `output`. */
  lemma {:induction false} ContentMore(state: State, path: string, hunk: DiffHunk, line: string, output: string)
    requires BodyFits(hunk) && !Complete(hunk) && state.at == AtHunk(path, hunk) && IsContent(line) && line != MARKER
    ensures
      var more := WithLine(hunk, line);
      var moved := Content(state, output, OldLines(more.body), NewLines(more.body));
      && (moved.Some? <==> BodyFits(more))
      && (moved.Some? ==> moved.value.state.at == AtHunk(path, more) && moved.value.state.previousPath == state.previousPath)
  {
    BodyMore(hunk.body, line);
  }

  /** After a complete hunk only its marker goes on with it. */
  lemma {:induction false} MarkerMore(state: State, path: string, hunk: DiffHunk, line: string)
    requires BodyFits(hunk) && Complete(hunk) && state.at == AtHunk(path, hunk) && line == MARKER
    ensures StepBetween(state, line).Some? <==> BodyFits(WithLine(hunk, line))
    ensures StepBetween(state, line).Some? ==>
      var after := StepBetween(state, line).value.state;
      after.at == AtHunk(path, WithLine(hunk, line)) && after.previousPath == state.previousPath
  {
    BodyMore(hunk.body, line);
    MarkerStarts(line);
  }

  lemma {:induction false} MarkerStarts(line: string)
    requires line == MARKER
    ensures line != [] && line[0] == '\\' && !(GIT_PREFIX <= line) && !("@@ " <= line)
  {
    assert GIT_PREFIX[0] == 'd' && "@@ "[0] == '@';
  }

  lemma {:induction false} LastHunkMore(hunks: seq<DiffHunk>, line: string, path: string, lexer: Lexer)
    requires hunks != [] && PartsOk(hunks, lexer)
    ensures
      var more := Longer(hunks, line);
      && more != [] && (PartsOk(more, lexer) <==> BodyFits(WithLine(Last(hunks), line)))
      && Last(more) == WithLine(Last(hunks), line)
  {
    LastLonger(hunks, line);
  }

  /** A line that belongs to the last hunk. */
  lemma {:induction false} GoesOnMore(r: Reading, state: State, line: string, task: Task, lexer: Lexer)
    requires r.draft.Hunks? && PartsOk(r.draft.file.hunks, lexer) && GoesOn(r.draft.file, line) && IsAt(state, r)
    ensures Step(state, line, task).Some? <==>
      PartsOk(Longer(r.draft.file.hunks, line), lexer) && !KeepsProtected(r, line, task.protection)
    ensures Step(state, line, task).Some? ==> IsAt(Step(state, line, task).value.state, Read(r, line, lexer))
  {
    var file := r.draft.file;
    var hunk := Last(file.hunks);
    LastHunkMore(file.hunks, line, file.heads.path, lexer);
    if Complete(hunk) {
      MarkerMore(state, file.heads.path, hunk, line);
    } else {
      InsideMore(state, file.heads.path, hunk, line, task);
    }
  }

  ghost predicate StartsAreOpen(lexer: Lexer) {
    forall line :: lexer.start(line).Some? ==> lexer.start(line).value.oldCount > 0 || lexer.start(line).value.newCount > 0
  }

  /** A line that starts a hunk. */
  lemma {:induction false} StartsHunkMore(r: Reading, state: State, line: string, lexer: Lexer)
    requires r.draft.Hunks? && PartsOk(r.draft.file.hunks, lexer) && !GoesOn(r.draft.file, line) && "@@ " <= line && IsAt(state, r)
    requires StartsAreOpen(lexer)
    ensures
      var moved := StartHunk(state, lexer.start(line), line);
      && (moved.Some? <==> PartsOk(r.draft.file.hunks + [StartedHunk(line, lexer)], lexer))
      && (moved.Some? ==> IsAt(moved.value.state, Read(r, line, lexer)))
  {
    var hunks, started := r.draft.file.hunks, StartedHunk(line, lexer);
    assert Front(hunks + [started]) == hunks && Last(hunks + [started]) == started;
  }

  lemma {:induction false} StepStartsHunk(state: State, line: string, task: Task)
    requires state.at.Between? && "@@ " <= line && line != MARKER
    ensures Step(state, line, task) == StartHunk(state, HunkStart(line), line)
  {
    StepIsBetween(state, line, task);
  }

  lemma {:induction false} StepIsBetween(state: State, line: string, task: Task)
    requires state.at.Between?
    ensures Step(state, line, task) == StepBetween(state, line)
  {
  }

  lemma {:induction false} StartIsNoMarker(line: string)
    requires "@@ " <= line
    ensures line != MARKER
  {
    assert line[0] == '@' && MARKER[0] == '\\';
  }

  lemma {:induction false} GitStartsAreOpen(other: char -> bool)
    ensures StartsAreOpen(GitLexer(other))
  {
    forall line | HunkStart(line).Some? ensures HunkStart(line).value.oldCount > 0 || HunkStart(line).value.newCount > 0 {
    }
  }

  /** A line after the hunks of a file. */
  lemma {:induction false} StartsFileMore(r: Reading, state: State, line: string, lexer: Lexer)
    requires ReadingOk(r, lexer) && r.draft.Hunks? && !GoesOn(r.draft.file, line) && !("@@ " <= line) && IsAt(state, r)
    ensures ReadingOk(Read(r, line, lexer), lexer) <==> r.draft.file.hunks != [] && lexer.isFileLine(line)
    ensures IsAt(state.(at := Opened(line)), Read(r, line, lexer))
  {
    var file := r.draft.file;
    assert Front(r.files + [file]) == r.files && Last(r.files + [file]) == file;
  }

  lemma {:induction false} StepStartsFile(state: State, line: string, task: Task)
    requires state.at.Between? && !(state.at.markerNext && line == MARKER) && !("@@ " <= line)
    ensures Step(state, line, task) ==
      if state.at.hasHunk && GitLexer(task.otherControl).isFileLine(line) then Some(Move(state.(at := Opened(line)), line)) else None
  {
  }

  /** What a header line does, as the lexer reads it. */
  function HeaderMove(state: State, line: string, lexer: Lexer): Option<Move> {
    match state.at
    case FileStart => if lexer.isFileLine(line) then Some(Move(state.(at := Opened(line)), line)) else None
    case Opened(git) =>
      if "new file mode " <= line then
        if line == NEW_MODE then Some(Move(state.(at := Moded(git)), line)) else None
      else if lexer.isIndex(line) then Some(Move(state.(at := Indexed(git)), line)) else None
    case Moded(git) => if lexer.isIndex(line) then Some(Move(state.(at := Indexed(git)), line)) else None
    case Indexed(git) => Some(Move(state.(at := OldHeader(git, line)), line))
    case OldHeader(git, header) =>
      (match lexer.path(header, line)
       case None => None
       case Some(path) =>
         if (state.previousPath.Some? && !PathLess(state.previousPath.value, path)) || !lexer.isGitLine(git, path) then None
         else Some(Move(State(Between(path, false, false), Some(path), state.seen), line)))
    case Between(_, _, _) => None
    case Inside(_, _, _, _, _) => None
  }

  lemma {:induction false} StepIsHeaderMove(state: State, line: string, task: Task)
    requires !state.at.Between? && !state.at.Inside?
    ensures Step(state, line, task) == HeaderMove(state, line, GitLexer(task.otherControl))
  {
  }

  /** A header line: each kind in its place, and a path that fits the lines before it. */
  lemma {:induction false} HeaderMore(r: Reading, state: State, line: string, lexer: Lexer)
    requires !r.draft.Hunks? && ReadingOk(r, lexer) && IsAt(state, r)
    requires "new file mode " <= line ==> !lexer.isIndex(line)
    ensures
      var moved, next := HeaderMove(state, line, lexer), Read(r, line, lexer);
      && (moved.Some? <==> ReadingOk(next, lexer))
      && (moved.Some? ==> IsAt(moved.value.state, next))
  {
    if r.draft.OldLine? {
      assert Read(r, line, lexer).draft.file.hunks == [];
    }
  }

  lemma {:induction false} ModeIsNotIndex(line: string)
    requires "new file mode " <= line
    ensures !IsIndexLine(line)
  {
    assert line[0] == 'n' && "index "[0] == 'i';
    assert |line| > 6 ==> line[..6][0] == 'n';
  }
  // ----- the automaton and the reading, step for step

  /** The move of one line from where the reading is. */
  ghost predicate Matches(moved: Option<Move>, r: Reading, line: string, lexer: Lexer, protection: Protection) {
    && (moved.Some? <==> ReadingOk(Read(r, line, lexer), lexer) && !KeepsProtected(r, line, protection))
    && (moved.Some? ==> IsAt(moved.value.state, Read(r, line, lexer)))
  }

  lemma {:induction false} HeaderMatches(r: Reading, state: State, line: string, task: Task)
    requires !r.draft.Hunks? && ReadingOk(r, GitLexer(task.otherControl)) && IsAt(state, r)
    ensures Matches(Step(state, line, task), r, line, GitLexer(task.otherControl), task.protection)
  {
    if "new file mode " <= line {
      ModeIsNotIndex(line);
    }
    StepIsHeaderMove(state, line, task);
    HeaderMore(r, state, line, GitLexer(task.otherControl));
  }

  lemma {:induction false} LineMatches(r: Reading, state: State, line: string, task: Task)
    requires r.draft.Hunks? && GoesOn(r.draft.file, line) && ReadingOk(r, GitLexer(task.otherControl)) && IsAt(state, r)
    ensures Matches(Step(state, line, task), r, line, GitLexer(task.otherControl), task.protection)
  {
    GoesOnMore(r, state, line, task, GitLexer(task.otherControl));
    LongerIsRead(r, Step(state, line, task), line, GitLexer(task.otherControl), task.protection);
  }

  lemma {:induction false} LongerIsRead(r: Reading, moved: Option<Move>, line: string, lexer: Lexer, protection: Protection)
    requires r.draft.Hunks? && GoesOn(r.draft.file, line) && ReadingOk(r, lexer)
    requires moved.Some? <==> PartsOk(Longer(r.draft.file.hunks, line), lexer) && !KeepsProtected(r, line, protection)
    requires moved.Some? ==> IsAt(moved.value.state, Read(r, line, lexer))
    ensures Matches(moved, r, line, lexer, protection)
  {
  }

  lemma {:induction false} HunkMatches(r: Reading, state: State, line: string, task: Task)
    requires r.draft.Hunks? && !GoesOn(r.draft.file, line) && ReadingOk(r, GitLexer(task.otherControl)) && IsAt(state, r)
    requires "@@ " <= line
    ensures Matches(Step(state, line, task), r, line, GitLexer(task.otherControl), task.protection)
  {
    GitStartsAreOpen(task.otherControl);
    StartIsNoMarker(line);
    StepStartsHunk(state, line, task);
    StartIsRead(r, state, line, GitLexer(task.otherControl), task.protection);
  }

  lemma {:induction false} StartIsRead(r: Reading, state: State, line: string, lexer: Lexer, protection: Protection)
    requires r.draft.Hunks? && !GoesOn(r.draft.file, line) && ReadingOk(r, lexer) && IsAt(state, r)
    requires "@@ " <= line && StartsAreOpen(lexer)
    ensures Matches(StartHunk(state, lexer.start(line), line), r, line, lexer, protection)
  {
    StartsHunkMore(r, state, line, lexer);
  }

  lemma {:induction false} FileMatches(r: Reading, state: State, line: string, task: Task)
    requires r.draft.Hunks? && !GoesOn(r.draft.file, line) && ReadingOk(r, GitLexer(task.otherControl)) && IsAt(state, r)
    requires !("@@ " <= line)
    ensures Matches(Step(state, line, task), r, line, GitLexer(task.otherControl), task.protection)
  {
    StepStartsFile(state, line, task);
    StartsFileMore(r, state, line, GitLexer(task.otherControl));
  }

  /** At every line the automaton moves exactly when the lines read so far begin a canonical diff. */
  ghost predicate Mirrors(step: (State, string) -> Option<Move>, lexer: Lexer, protection: Protection) {
    forall r, state, line :: ReadingOk(r, lexer) && IsAt(state, r) ==> Matches(step(state, line), r, line, lexer, protection)
  }

  lemma {:induction false} StepperMirrors(task: Task)
    ensures Mirrors(Stepper(task), GitLexer(task.otherControl), task.protection)
  {
    var lexer := GitLexer(task.otherControl);
    forall r, state, line | ReadingOk(r, lexer) && IsAt(state, r)
      ensures Matches(Step(state, line, task), r, line, lexer, task.protection)
    {
      if !r.draft.Hunks? {
        HeaderMatches(r, state, line, task);
      } else if GoesOn(r.draft.file, line) {
        LineMatches(r, state, line, task);
      } else if "@@ " <= line {
        HunkMatches(r, state, line, task);
      } else {
        FileMatches(r, state, line, task);
      }
    }
  }
}

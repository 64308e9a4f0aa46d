/** The redactor as it runs: one cursor over the lines, a loop for files, for hunks and for lines. */
module DiffRedactor {
  import opened LineSplitting
  import opened HunkHeaders
  import opened RepositoryPaths
  import opened PrivateKeyRanges
  import opened GitDiffHeaders
  import opened DiffRedaction

  /** The automaton has read the lines before `cursor`. */
  ghost predicate Reached(lines: seq<string>, cursor: nat, state: State, output: seq<string>, task: Task) {
    cursor <= |lines| && Run(lines[..cursor], Stepper(task)) == Some(Trace(state, output))
  }

  lemma {:induction false} RunPrefix(lines: seq<string>, n: nat, step: (State, string) -> Option<Move>)
    requires n <= |lines| && Run(lines[..n], step).None?
    ensures Run(lines, step).None?
    decreases |lines|
  {
    if n < |lines| {
      assert Front(lines)[..n] == lines[..n];
      RunPrefix(Front(lines), n, step);
    } else {
      assert lines[..n] == lines;
    }
  }

  /** Reading one more line: a refused line refuses the diff. */
  lemma {:induction false} Advance(lines: seq<string>, cursor: nat, state: State, output: seq<string>, task: Task)
    requires Reached(lines, cursor, state, output, task) && cursor < |lines|
    ensures
      match Step(state, lines[cursor], task)
      case None => !Accepts(lines, task)
      case Some(move) => Reached(lines, cursor + 1, move.state, output + [move.output], task)
  {
    assert Front(lines[..cursor + 1]) == lines[..cursor] && Last(lines[..cursor + 1]) == lines[cursor];
    if Step(state, lines[cursor], task).None? {
      RunPrefix(lines, cursor + 1, Stepper(task));
    }
  }

  /** A diff that ends elsewhere than after a hunk is refused. */
  lemma {:induction false} Stuck(lines: seq<string>, state: State, output: seq<string>, task: Task)
    requires Reached(lines, |lines|, state, output, task) && !AtEnd(state)
    ensures !Accepts(lines, task)
  {
    assert lines[..|lines|] == lines;
  }

  /** Between hunks, with no marker line to come. */
  ghost predicate AtHunks(lines: seq<string>, cursor: nat, state: State, output: seq<string>, task: Task) {
    && Reached(lines, cursor, state, output, task) && state.at.Between?
    && (state.at.markerNext && cursor < |lines| ==> lines[cursor] != MARKER)
  }

  /** A marker right after a content line is copied. */
  method SkipMarker(lines: seq<string>, cursor: nat, output: seq<string>, ghost state: State, ghost task: Task)
    returns (cursor': nat, output': seq<string>, ghost state': State)
    requires Reached(lines, cursor, state, output, task)
    requires (state.at.Inside? || state.at.Between?) && state.at.markerNext
    ensures cursor <= cursor' && Reached(lines, cursor', state', output', task)
    ensures state' in {state, state.(at := Unmarked(state.at))}
    ensures state'.at.markerNext && cursor' < |lines| ==> lines[cursor'] != MARKER
  {
    cursor', output', state' := cursor, output, state;
    if cursor < |lines| && lines[cursor] == MARKER {
      Advance(lines, cursor, state, output, task);
      cursor', output', state' := cursor + 1, output + [MARKER], state.(at := Unmarked(state.at));
    }
  }

  function Unmarked(at: At): At
    requires at.Inside? || at.Between?
  {
    match at
    case Inside(path, c, oldSeen, newSeen, _) => Inside(path, c, oldSeen, newSeen, false)
    case Between(path, hasHunk, _) => Between(path, hasHunk, false)
  }

  /** Where a hunk stands with `oldSeen` and `newSeen` lines read. */
  ghost predicate InHunk(lines: seq<string>, cursor: nat, state: State, output: seq<string>, task: Task, path: string, c: Coordinates,
      oldSeen: nat, newSeen: nat)
  {
    && Reached(lines, cursor, state, output, task) && oldSeen <= c.oldCount && newSeen <= c.newCount
    && if oldSeen < c.oldCount || newSeen < c.newCount then
         && state.at.Inside? && state.at == Inside(path, c, oldSeen, newSeen, state.at.markerNext)
         && (state.at.markerNext && cursor < |lines| ==> lines[cursor] != MARKER)
       else AtHunks(lines, cursor, state, output, task) && state.at.path == path && state.at.hasHunk
  }

  /** What one content line is: its output, and the counts and coordinates after it. */
  method JudgeLine(raw: string, task: Task, ghost state: State, path: string, c: Coordinates, oldSeen: nat, newSeen: nat, seen: set<(string, nat)>)
    returns (ok: bool, rendered: string, oldSeen': nat, newSeen': nat, seen': set<(string, nat)>)
    requires state.at.Inside? && state.at == Inside(path, c, oldSeen, newSeen, state.at.markerNext) && seen == state.seen
    requires raw == MARKER ==> !state.at.markerNext
    ensures ok ==> oldSeen' <= c.oldCount && newSeen' <= c.newCount
    ensures ok ==>
      Step(state, raw, task) == Some(Move(State(Within(path, c, oldSeen', newSeen').value, state.previousPath, seen'), rendered))
    ensures !ok ==> Step(state, raw, task).None?
  {
    ok, rendered, oldSeen', newSeen', seen' := false, raw, oldSeen, newSeen, seen;
    if raw == MARKER || raw == [] {
      return;
    }
    var number := c.oldStart + oldSeen;
    if raw[0] == ' ' {
      if IsProtected(task.protection, path, number) {
        return;
      }
      oldSeen', newSeen' := oldSeen + 1, newSeen + 1;
    } else if raw[0] == '-' {
      oldSeen' := oldSeen + 1;
      if IsProtected(task.protection, path, number) {
        rendered := SENTINEL_LINE;
        seen' := seen + {(path, number)};
      }
    } else if raw[0] == '+' {
      newSeen' := newSeen + 1;
    } else {
      return;
    }
    ok := oldSeen' <= c.oldCount && newSeen' <= c.newCount;
  }

  /** One content line of a hunk and the marker after it, if any. */
  method ReadLine(lines: seq<string>, cursor: nat, output: seq<string>, task: Task, ghost state: State, path: string, c: Coordinates,
      oldSeen: nat, newSeen: nat, seen: set<(string, nat)>)
    returns (ok: bool, cursor': nat, output': seq<string>, ghost state': State, oldSeen': nat, newSeen': nat, seen': set<(string, nat)>)
    requires InHunk(lines, cursor, state, output, task, path, c, oldSeen, newSeen) && seen == state.seen
    requires oldSeen < c.oldCount || newSeen < c.newCount
    ensures ok ==> cursor < cursor' && InHunk(lines, cursor', state', output', task, path, c, oldSeen', newSeen') && seen' == state'.seen
    ensures ok ==> state'.previousPath == state.previousPath
    ensures !ok ==> !Accepts(lines, task)
  {
    ok, cursor', output', state', oldSeen', newSeen', seen' := false, cursor, output, state, oldSeen, newSeen, seen;
    if cursor >= |lines| {
      Stuck(lines, state, output, task);
      return;
    }
    Advance(lines, cursor, state, output, task);
    var rendered;
    ok, rendered, oldSeen', newSeen', seen' := JudgeLine(lines[cursor], task, state, path, c, oldSeen, newSeen, seen);
    if !ok {
      return;
    }
    state' := State(Within(path, c, oldSeen', newSeen').value, state.previousPath, seen');
    cursor', output', state' := SkipMarker(lines, cursor + 1, output + [rendered], state', task);
  }

  /** The content lines of one hunk, until its counts are met. */
  method ReadHunk(lines: seq<string>, cursor: nat, output: seq<string>, task: Task, ghost state: State, path: string, c: Coordinates,
      seen: set<(string, nat)>)
    returns (ok: bool, cursor': nat, output': seq<string>, ghost state': State, seen': set<(string, nat)>)
    requires Reached(lines, cursor, state, output, task) && state.at == Inside(path, c, 0, 0, false) && seen == state.seen
    requires c.oldCount > 0 || c.newCount > 0
    ensures ok ==> cursor <= cursor' && AtHunks(lines, cursor', state', output', task) && seen' == state'.seen
    ensures ok ==> state'.at.path == path && state'.at.hasHunk && state'.previousPath == state.previousPath
    ensures !ok ==> !Accepts(lines, task)
  {
    ok, cursor', output', state', seen' := true, cursor, output, state, seen;
    var oldSeen: nat, newSeen: nat := 0, 0;
    while ok && (oldSeen < c.oldCount || newSeen < c.newCount)
      invariant ok ==> cursor <= cursor' && InHunk(lines, cursor', state', output', task, path, c, oldSeen, newSeen) && seen' == state'.seen
      invariant ok ==> state'.previousPath == state.previousPath
      invariant !ok ==> !Accepts(lines, task)
      decreases ok, |lines| - cursor'
    {
      ok, cursor', output', state', oldSeen, newSeen, seen' :=
        ReadLine(lines, cursor', output', task, state', path, c, oldSeen, newSeen, seen');
    }
  }

  /** A hunk header opens a hunk with something in it, or refuses the diff. */
  lemma {:induction false} AdvanceToHunk(lines: seq<string>, cursor: nat, state: State, output: seq<string>, task: Task)
    requires AtHunks(lines, cursor, state, output, task) && cursor < |lines| && "@@ " <= lines[cursor]
    ensures
      match HunkStart(lines[cursor])
      case None => !Accepts(lines, task)
      case Some(c) =>
        && (c.oldCount > 0 || c.newCount > 0)
        && Reached(lines, cursor + 1, state.(at := Inside(state.at.path, c, 0, 0, false)), output + [lines[cursor]], task)
  {
    Advance(lines, cursor, state, output, task);
  }

  /** The header and the content lines of one hunk. */
  method ReadNextHunk(lines: seq<string>, cursor: nat, output: seq<string>, task: Task, ghost state: State, path: string, seen: set<(string, nat)>)
    returns (ok: bool, cursor': nat, output': seq<string>, ghost state': State, seen': set<(string, nat)>)
    requires AtHunks(lines, cursor, state, output, task) && state.at.path == path && seen == state.seen
    requires cursor < |lines| && "@@ " <= lines[cursor]
    ensures ok ==> cursor < cursor' && AtHunks(lines, cursor', state', output', task) && seen' == state'.seen
    ensures ok ==> state'.at.path == path && state'.at.hasHunk && state'.previousPath == state.previousPath
    ensures !ok ==> !Accepts(lines, task)
  {
    ok, cursor', output', state', seen' := false, cursor, output, state, seen;
    AdvanceToHunk(lines, cursor, state, output, task);
    var start := HunkStart(lines[cursor]);
    if start.None? {
      return;
    }
    ok, cursor', output', state', seen' :=
      ReadHunk(lines, cursor + 1, output + [lines[cursor]], task, state.(at := Inside(path, start.value, 0, 0, false)), path, start.value, seen);
  }

  /** The hunks of a file. */
  method ReadHunks(lines: seq<string>, cursor: nat, output: seq<string>, task: Task, ghost state: State, path: string, seen: set<(string, nat)>)
    returns (ok: bool, cursor': nat, output': seq<string>, ghost state': State, seen': set<(string, nat)>)
    requires AtHunks(lines, cursor, state, output, task) && state.at == Between(path, false, false) && seen == state.seen
    ensures ok ==> cursor <= cursor' && AtHunks(lines, cursor', state', output', task) && AtEnd(state') && seen' == state'.seen
    ensures ok ==> state'.previousPath == state.previousPath && (cursor' < |lines| ==> GIT_PREFIX <= lines[cursor'])
    ensures !ok ==> !Accepts(lines, task)
  {
    ok, cursor', output', state', seen' := true, cursor, output, state, seen;
    var hunkCount := 0;
    while ok && cursor' < |lines| && "@@ " <= lines[cursor']
      invariant ok ==> cursor <= cursor' && AtHunks(lines, cursor', state', output', task) && seen' == state'.seen
      invariant ok ==> state'.at.path == path && state'.at.hasHunk == (hunkCount > 0) && state'.previousPath == state.previousPath
      invariant !ok ==> !Accepts(lines, task)
      decreases ok, |lines| - cursor'
    {
      hunkCount := hunkCount + 1;
      ok, cursor', output', state', seen' := ReadNextHunk(lines, cursor', output', task, state', path, seen');
    }
    if ok && (hunkCount == 0 || (cursor' < |lines| && !(GIT_PREFIX <= lines[cursor']))) {
      HunksEnd(lines, cursor', state', output', task);
      ok := false;
    }
  }

  /** After the hunks there is the end or another file. */
  lemma {:induction false} HunksEnd(lines: seq<string>, cursor: nat, state: State, output: seq<string>, task: Task)
    requires AtHunks(lines, cursor, state, output, task) && (cursor < |lines| ==> !("@@ " <= lines[cursor]))
    requires !state.at.hasHunk || (cursor < |lines| && !(GIT_PREFIX <= lines[cursor]))
    ensures !Accepts(lines, task)
  {
    if cursor < |lines| {
      Advance(lines, cursor, state, output, task);
    } else {
      Stuck(lines, state, output, task);
    }
  }

  /** Where a file may start. */
  ghost predicate AtFile(lines: seq<string>, cursor: nat, state: State, output: seq<string>, task: Task) {
    Reached(lines, cursor, state, output, task) && (state.at.FileStart? || AtEnd(state))
  }

  lemma {:induction false} PrefixesDiffer(line: string)
    requires GIT_PREFIX <= line
    ensures line != MARKER && !("@@ " <= line)
  {
    assert line[0] == GIT_PREFIX[0] == 'd' && MARKER[0] == '\\' && "@@ "[0] == '@';
  }

  /** The file line, the optional mode line and the index line. */
  method ReadGitLines(lines: seq<string>, cursor: nat, output: seq<string>, ghost task: Task, ghost state: State)
    returns (ok: bool, cursor': nat, output': seq<string>, ghost state': State)
    requires AtFile(lines, cursor, state, output, task) && cursor < |lines| && GIT_PREFIX <= lines[cursor]
    ensures ok ==> cursor < cursor' && Reached(lines, cursor', state', output', task)
    ensures ok ==> state' == State(Indexed(lines[cursor]), state.previousPath, state.seen)
    ensures !ok ==> !Accepts(lines, task)
  {
    ok, cursor', output', state' := false, cursor, output, state;
    PrefixesDiffer(lines[cursor]);
    Advance(lines, cursor, state, output, task);
    state' := state.(at := Opened(lines[cursor]));
    cursor', output' := cursor + 1, output + [lines[cursor]];
    if cursor' < |lines| && "new file mode " <= lines[cursor'] {
      Advance(lines, cursor', state', output', task);
      if lines[cursor'] != NEW_MODE {
        return;
      }
      state' := state.(at := Moded(lines[cursor]));
      output' := output' + [lines[cursor']];
      cursor' := cursor' + 1;
    }
    if cursor' >= |lines| {
      Stuck(lines, state', output', task);
      return;
    }
    Advance(lines, cursor', state', output', task);
    if !IsIndexLine(lines[cursor']) {
      return;
    }
    state' := State(Indexed(lines[cursor]), state.previousPath, state.seen);
    output' := output' + [lines[cursor']];
    cursor' := cursor' + 1;
    ok := true;
  }

  /** The two path lines, checked against the file line and the path before. */
  method ReadPathLines(lines: seq<string>, cursor: nat, output: seq<string>, task: Task, ghost state: State, git: string, previousPath: Option<string>)
    returns (path: Option<string>, output': seq<string>, ghost state': State)
    requires Reached(lines, cursor, state, output, task) && state.at == Indexed(git) && state.previousPath == previousPath
    ensures path.Some? ==> cursor + 2 <= |lines| && AtHunks(lines, cursor + 2, state', output', task)
    ensures path.Some? ==> state' == State(Between(path.value, false, false), path, state.seen)
    ensures path.None? ==> !Accepts(lines, task)
  {
    path, output', state' := None, output, state;
    if cursor >= |lines| {
      Stuck(lines, state, output, task);
      return;
    }
    Advance(lines, cursor, state, output, task);
    state' := state.(at := OldHeader(git, lines[cursor]));
    output' := output + [lines[cursor]];
    if cursor + 1 >= |lines| {
      Stuck(lines, state', output', task);
      return;
    }
    Advance(lines, cursor + 1, state', output', task);
    var found := FilePath(lines[cursor], lines[cursor + 1], task.otherControl);
    if found.None? || (previousPath.Some? && !PathLess(previousPath.value, found.value)) || !IsGitLineOf(git, found.value) {
      return;
    }
    path := found;
    state' := State(Between(found.value, false, false), found, state.seen);
    output' := output' + [lines[cursor + 1]];
  }

  /** All protected coordinates, as the redactor collects them. */
  function Expected(protection: Protection): set<(string, nat)> {
    set path, n | path in protection && n in protection[path] :: (path, n)
  }

  lemma {:induction false} ExpectedIsAll(protection: Protection, seen: set<(string, nat)>)
    ensures AllSeen(protection, seen) <==> seen == Expected(protection)
  {
    forall path, n: nat ensures (path, n) in Expected(protection) <==> IsProtected(protection, path, n) {
    }
    if AllSeen(protection, seen) {
      forall pair | pair in seen ensures pair in Expected(protection) {
        assert (pair.0, pair.1) in seen;
      }
      assert seen == Expected(protection);
    }
  }

  /** Where the outer loop stands: at a file, or at the end. */
  ghost predicate Ready(lines: seq<string>, cursor: nat, state: State, output: seq<string>, task: Task, previousPath: Option<string>,
      seen: set<(string, nat)>)
  {
    && AtFile(lines, cursor, state, output, task) && state.previousPath == previousPath && state.seen == seen
    && (cursor > 0 ==> AtEnd(state) && (cursor < |lines| ==> GIT_PREFIX <= lines[cursor]))
  }

  /** One file. */
  method RedactFile(lines: seq<string>, cursor: nat, output: seq<string>, task: Task, ghost state: State, previousPath: Option<string>,
      seen: set<(string, nat)>)
    returns (ok: bool, cursor': nat, output': seq<string>, ghost state': State, path: Option<string>, seen': set<(string, nat)>)
    requires Ready(lines, cursor, state, output, task, previousPath, seen) && cursor < |lines|
    ensures ok ==> cursor < cursor' && Ready(lines, cursor', state', output', task, path, seen')
    ensures !ok ==> !Accepts(lines, task)
  {
    ok, cursor', output', state', path, seen' := false, cursor, output, state, previousPath, seen;
    if !(GIT_PREFIX <= lines[cursor]) {
      NotAFile(lines, cursor, state, output, task);
      return;
    }
    ok, cursor', output', state' := ReadGitLines(lines, cursor, output, task, state);
    if !ok {
      return;
    }
    path, output', state' := ReadPathLines(lines, cursor', output', task, state', lines[cursor], previousPath);
    if path.None? {
      ok := false;
      return;
    }
    ok, cursor', output', state', seen' := ReadHunks(lines, cursor' + 2, output', task, state', path.value, seen);
  }

  /** `_redact_private_key_diff` */
  method RedactPrivateKeyDiff(text: string, task: Task) returns (redacted: Option<string>)
    ensures redacted == Redact(text, task)
  {
    if !IsDiffText(text) {
      return None;
    }
    var lines := LfLines(text);
    var output: seq<string> := [];
    var seen: set<(string, nat)> := {};
    var cursor: nat := 0;
    var previousPath: Option<string> := None;
    var ok := true;
    ghost var state := START;
    assert lines[..0] == [];
    LinesNotEmpty(text);
    while ok && cursor < |lines|
      invariant ok ==> Ready(lines, cursor, state, output, task, previousPath, seen)
      invariant !ok ==> !Accepts(lines, task)
      decreases ok, |lines| - cursor
    {
      ok, cursor, output, state, previousPath, seen := RedactFile(lines, cursor, output, task, state, previousPath, seen);
    }
    if !ok {
      return None;
    }
    assert lines[..|lines|] == lines;
    ExpectedIsAll(task.protection, seen);
    return if seen == Expected(task.protection) then Some(Flatten(output)) else None;
  }

  /** A diff that does not begin with a file is refused. */
  lemma {:induction false} NotAFile(lines: seq<string>, cursor: nat, state: State, output: seq<string>, task: Task)
    requires AtFile(lines, cursor, state, output, task) && cursor < |lines| && !(GIT_PREFIX <= lines[cursor]) && state.at.FileStart?
    ensures !Accepts(lines, task)
  {
    Advance(lines, cursor, state, output, task);
  }

  lemma {:induction false} LinesNotEmpty(text: string)
    requires text != []
    ensures LfLines(text) != []
  {
    LinesSound(text, IsNewline);
  }
}

/** Redaction of protected deletions in a canonical Git diff, as an automaton over its lines, and
    what it hides and what it keeps. */
module DiffRedaction {
  import opened LineSplitting
  import opened HunkHeaders
  import opened RepositoryPaths
  import opened PrivateKeyRanges
  import opened GitDiffHeaders

  const MARKER := "\\ No newline at end of file\n"
  const SENTINEL_LINE := "-[REDACTED_PRIVATE_KEY_MATERIAL]\n"

  /** Protected line numbers of each path. */
  type Protection = map<string, set<nat>>

  predicate IsProtected(protection: Protection, path: string, n: nat) {
    path in protection && n in protection[path]
  }

  ghost predicate AllSeen(protection: Protection, seen: set<(string, nat)>) {
    forall path, n: nat :: (path, n) in seen <==> IsProtected(protection, path, n)
  }

  // ----- the automaton

  datatype At =
    | FileStart
    | Opened(git: string)
    | Moded(git: string)
    | Indexed(git: string)
    | OldHeader(git: string, header: string)
    | Between(path: string, hasHunk: bool, markerNext: bool)
    | Inside(path: string, c: Coordinates, oldSeen: nat, newSeen: nat, markerNext: bool)

  datatype State = State(at: At, previousPath: Option<string>, seen: set<(string, nat)>)

  const START := State(FileStart, None, {})

  datatype Move = Move(state: State, output: string)

  /** What the redactor is given besides the diff. */
  datatype Task = Task(protection: Protection, otherControl: char -> bool)

  /** `_canonical_hunk_coordinates` */
  function HunkStart(line: string): Option<Coordinates> {
    if line == [] || Last(line) != '\n' then None
    else
      match ParseHunkHeader(Front(line))
      case None => None
      case Some(c) =>
        if (c.oldCount > 0 && c.oldStart == 0) || (c.newCount > 0 && c.newStart == 0) || (c.oldCount == 0 && c.newCount == 0) then None
        else Some(c)
  }

  /** After a content line: in the hunk until both counts are met. */
  function Within(path: string, c: Coordinates, oldSeen: nat, newSeen: nat): Option<At> {
    if oldSeen > c.oldCount || newSeen > c.newCount then None
    else if oldSeen == c.oldCount && newSeen == c.newCount then Some(Between(path, true, true))
    else Some(Inside(path, c, oldSeen, newSeen, true))
  }

  function Content(state: State, line: string, oldSeen: nat, newSeen: nat): Option<Move>
    requires state.at.Inside?
  {
    match Within(state.at.path, state.at.c, oldSeen, newSeen)
    case None => None
    case Some(at) => Some(Move(state.(at := at), line))
  }

  function StepInside(state: State, line: string, task: Task): Option<Move>
    requires state.at.Inside?
  {
    var at := state.at;
    var number := at.c.oldStart + at.oldSeen;
    if line == MARKER then
      if at.markerNext then Some(Move(state.(at := Inside(at.path, at.c, at.oldSeen, at.newSeen, false)), line)) else None
    else if line == [] then None
    else if line[0] == ' ' then
      if IsProtected(task.protection, at.path, number) then None else Content(state, line, at.oldSeen + 1, at.newSeen + 1)
    else if line[0] == '-' then
      if IsProtected(task.protection, at.path, number) then
        Content(state.(seen := state.seen + {(at.path, number)}), SENTINEL_LINE, at.oldSeen + 1, at.newSeen)
      else Content(state, line, at.oldSeen + 1, at.newSeen)
    else if line[0] == '+' then Content(state, line, at.oldSeen, at.newSeen + 1)
    else None
  }

  function StartHunk(state: State, start: Option<Coordinates>, line: string): Option<Move>
    requires state.at.Between?
  {
    match start
    case None => None
    case Some(c) => Some(Move(state.(at := Inside(state.at.path, c, 0, 0, false)), line))
  }

  function StepBetween(state: State, line: string): Option<Move>
    requires state.at.Between?
  {
    var at := state.at;
    if at.markerNext && line == MARKER then Some(Move(state.(at := Between(at.path, at.hasHunk, false)), line))
    else if "@@ " <= line then StartHunk(state, HunkStart(line), line)
    else if at.hasHunk && GIT_PREFIX <= line then Some(Move(state.(at := Opened(line)), line))
    else None
  }

  function StepNewHeader(state: State, line: string, task: Task): Option<Move>
    requires state.at.OldHeader?
  {
    match FilePath(state.at.header, line, task.otherControl)
    case None => None
    case Some(path) =>
      if state.previousPath.Some? && !PathLess(state.previousPath.value, path) then None
      else if !IsGitLineOf(state.at.git, path) then None
      else Some(Move(State(Between(path, false, false), Some(path), state.seen), line))
  }

  /** One line of the diff. */
  function Step(state: State, line: string, task: Task): Option<Move> {
    match state.at
    case FileStart => if GIT_PREFIX <= line then Some(Move(state.(at := Opened(line)), line)) else None
    case Opened(git) =>
      if "new file mode " <= line then
        if line == NEW_MODE then Some(Move(state.(at := Moded(git)), line)) else None
      else if IsIndexLine(line) then Some(Move(state.(at := Indexed(git)), line)) else None
    case Moded(git) => if IsIndexLine(line) then Some(Move(state.(at := Indexed(git)), line)) else None
    case Indexed(git) => Some(Move(state.(at := OldHeader(git, line)), line))
    case OldHeader(_, _) => StepNewHeader(state, line, task)
    case Between(_, _, _) => StepBetween(state, line)
    case Inside(_, _, _, _, _) => StepInside(state, line, task)
  }

  datatype Trace = Trace(state: State, output: seq<string>)

  function Stepper(task: Task): (State, string) -> Option<Move> { (state, line) => Step(state, line, task) }

  /** The state and the output after the lines, or `None` once a line is refused. */
  function Run(lines: seq<string>, step: (State, string) -> Option<Move>): Option<Trace> {
    if lines == [] then Some(Trace(START, []))
    else
      match Run(Front(lines), step)
      case None => None
      case Some(before) =>
        match step(before.state, Last(lines))
        case None => None
        case Some(move) => Some(Trace(move.state, before.output + [move.output]))
  }

  predicate AtEnd(state: State) { state.at.Between? && state.at.hasHunk }

  /** The diff is canonical, and its deletions are met at every protected line. */
  ghost predicate Accepts(lines: seq<string>, task: Task) {
    var run := Run(lines, Stepper(task));
    run.Some? && AtEnd(run.value.state) && AllSeen(task.protection, run.value.state.seen)
  }

  /** `_canonical_diff_lines` */
  predicate IsDiffText(text: string) {
    text != [] && Last(text) == '\n' && '\r' !in text && '\0' !in text
  }

  /** `_redact_private_key_diff` */
  ghost function Redact(text: string, task: Task): Option<string> {
    if IsDiffText(text) && Accepts(LfLines(text), task) then Some(Flatten(Run(LfLines(text), Stepper(task)).value.output))
    else None
  }

  // ----- one step

  /** The line is a deletion of a protected line. */
  predicate IsHidden(state: State, line: string, protection: Protection) {
    && state.at.Inside? && line != [] && line[0] == '-'
    && IsProtected(protection, state.at.path, state.at.c.oldStart + state.at.oldSeen)
  }

  predicate IsContextAt(state: State, line: string, path: string, n: nat) {
    state.at.Inside? && line != [] && line[0] == ' ' && state.at.path == path && state.at.c.oldStart + state.at.oldSeen == n
  }

  predicate IsDeletionAt(state: State, line: string, path: string, n: nat) {
    state.at.Inside? && line != [] && line[0] == '-' && state.at.path == path && state.at.c.oldStart + state.at.oldSeen == n
  }

  /** What the theorems need of a step. */
  ghost predicate Discreet(step: (State, string) -> Option<Move>, protection: Protection) {
    && (forall state, a, b :: IsHidden(state, a, protection) && IsHidden(state, b, protection) ==> step(state, a) == step(state, b))
    && (forall state, line :: step(state, line).Some? ==>
         step(state, line).value.output == if IsHidden(state, line, protection) then SENTINEL_LINE else line)
    && (forall state, line, path, n :: step(state, line).Some? && IsProtected(protection, path, n) ==> !IsContextAt(state, line, path, n))
    && (forall state, line :: step(state, line).Some? ==>
         step(state, line).value.state.seen == state.seen + NewlySeen(state, line, protection))
  }

  /** The protected coordinate that a line deletes. */
  function NewlySeen(state: State, line: string, protection: Protection): set<(string, nat)> {
    if IsHidden(state, line, protection) then {(state.at.path, state.at.c.oldStart + state.at.oldSeen)} else {}
  }

  lemma {:induction false} StepperIsDiscreet(task: Task)
    ensures Discreet(Stepper(task), task.protection)
  {
    var step := Stepper(task);
    forall state, a, b | IsHidden(state, a, task.protection) && IsHidden(state, b, task.protection)
      ensures step(state, a) == step(state, b)
    {
      assert a != MARKER && b != MARKER;
    }
    forall state, line | step(state, line).Some?
      ensures step(state, line).value.output == if IsHidden(state, line, task.protection) then SENTINEL_LINE else line
      ensures step(state, line).value.state.seen == state.seen + NewlySeen(state, line, task.protection)
    {
      StepSays(state, line, task);
    }
    forall state, line, path, n | step(state, line).Some? && IsProtected(task.protection, path, n)
      ensures !IsContextAt(state, line, path, n)
    {
    }
  }

  lemma {:induction false} StepSays(state: State, line: string, task: Task)
    requires Step(state, line, task).Some?
    ensures
      var move := Step(state, line, task).value;
      && move.output == (if IsHidden(state, line, task.protection) then SENTINEL_LINE else line)
      && move.state.seen == state.seen + NewlySeen(state, line, task.protection)
  {
    assert MARKER[0] == '\\';
  }

  // ----- whole diffs

  /** The state before line `i` of an accepted diff. */
  function StateAt(lines: seq<string>, i: nat, step: (State, string) -> Option<Move>): State
    requires i <= |lines|
  {
    match Run(lines[..i], step)
    case None => START
    case Some(trace) => trace.state
  }

  predicate HiddenAt(lines: seq<string>, i: nat, step: (State, string) -> Option<Move>, protection: Protection)
    requires i < |lines|
  {
    IsHidden(StateAt(lines, i, step), lines[i], protection)
  }

  lemma {:induction false} RunStep(lines: seq<string>, i: nat, step: (State, string) -> Option<Move>)
    requires i < |lines| && Run(lines, step).Some?
    ensures Run(lines[..i], step).Some? && Run(lines[..i + 1], step).Some?
    ensures
      var before, after := Run(lines[..i], step).value, Run(lines[..i + 1], step).value;
      && before.state == StateAt(lines, i, step) && step(before.state, lines[i]).Some?
      && after == Trace(step(before.state, lines[i]).value.state, before.output + [step(before.state, lines[i]).value.output])
    decreases |lines|
  {
    if i == |lines| - 1 {
      assert lines[..i + 1] == lines && lines[..i] == Front(lines);
    } else {
      RunStep(Front(lines), i, step);
      assert Front(lines)[..i] == lines[..i] && Front(lines)[..i + 1] == lines[..i + 1];
    }
  }

  /** The output for the first `n` lines of an accepted diff. */
  function OutputTo(lines: seq<string>, n: nat, step: (State, string) -> Option<Move>): seq<string>
    requires n <= |lines|
  {
    match Run(lines[..n], step)
    case None => []
    case Some(trace) => trace.output
  }

  /** What a line becomes. */
  function Masked(lines: seq<string>, i: nat, step: (State, string) -> Option<Move>, protection: Protection): string
    requires i < |lines|
  {
    if HiddenAt(lines, i, step, protection) then SENTINEL_LINE else lines[i]
  }

  lemma {:induction false} OutputNext(lines: seq<string>, n: nat, step: (State, string) -> Option<Move>, protection: Protection)
    requires Run(lines, step).Some? && Discreet(step, protection) && n < |lines|
    ensures OutputTo(lines, n + 1, step) == OutputTo(lines, n, step) + [Masked(lines, n, step, protection)]
  {
    RunStep(lines, n, step);
  }

  lemma {:induction false} OutputLength(lines: seq<string>, n: nat, step: (State, string) -> Option<Move>, protection: Protection)
    requires Run(lines, step).Some? && Discreet(step, protection) && n <= |lines|
    ensures |OutputTo(lines, n, step)| == n
    decreases n
  {
    if n > 0 {
      OutputLength(lines, n - 1, step, protection);
      OutputNext(lines, n - 1, step, protection);
    } else {
      assert lines[..0] == [];
    }
  }

  /** Line for line, the output is the input, except that a hidden deletion becomes the sentinel. */
  lemma {:induction false} OutputAt(lines: seq<string>, n: nat, i: nat, step: (State, string) -> Option<Move>, protection: Protection)
    requires Run(lines, step).Some? && Discreet(step, protection) && i < n <= |lines|
    ensures |OutputTo(lines, n, step)| == n && OutputTo(lines, n, step)[i] == Masked(lines, i, step, protection)
    decreases n
  {
    OutputLength(lines, n - 1, step, protection);
    OutputNext(lines, n - 1, step, protection);
    if i < n - 1 {
      OutputAt(lines, n - 1, i, step, protection);
    }
  }

  /** The whole output, line for line. */
  lemma {:induction false} WholeOutput(lines: seq<string>, step: (State, string) -> Option<Move>, protection: Protection)
    requires Run(lines, step).Some? && Discreet(step, protection)
    ensures |Run(lines, step).value.output| == |lines|
    ensures forall i :: 0 <= i < |lines| ==> Run(lines, step).value.output[i] == Masked(lines, i, step, protection)
  {
    var output := Run(lines, step).value.output;
    assert lines[..|lines|] == lines;
    OutputLength(lines, |lines|, step, protection);
    forall i | 0 <= i < |lines| ensures output[i] == Masked(lines, i, step, protection) {
      OutputAt(lines, |lines|, i, step, protection);
    }
  }

  /** Diffs that differ only in the text of hidden deletions. */
  ghost predicate SameButHidden(a: seq<string>, b: seq<string>, step: (State, string) -> Option<Move>, protection: Protection) {
    && |a| == |b|
    && forall i :: 0 <= i < |a| ==>
         a[i] == b[i] || (HiddenAt(a, i, step, protection) && b[i] != [] && b[i][0] == '-')
  }

  lemma {:induction false} HiddenTextIsIgnored(a: seq<string>, b: seq<string>, n: nat, step: (State, string) -> Option<Move>, protection: Protection)
    requires Run(a, step).Some? && Discreet(step, protection) && SameButHidden(a, b, step, protection) && n <= |a|
    ensures Run(b[..n], step) == Run(a[..n], step)
    decreases n
  {
    if n > 0 {
      HiddenTextIsIgnored(a, b, n - 1, step, protection);
      RunStep(a, n - 1, step);
      assert Front(b[..n]) == b[..n - 1] && Front(a[..n]) == a[..n - 1];
      if a[n - 1] != b[n - 1] {
        assert HiddenAt(a, n - 1, step, protection);
        assert IsHidden(StateAt(a, n - 1, step), b[n - 1], protection);
      }
    }
  }

  /** Redaction does not depend on protected text: a diff that differs from an accepted one only in
      the text of protected deletions is accepted too, and both give the same output. */
  lemma {:induction false} RedactionIsBlind(a: seq<string>, b: seq<string>, task: Task)
    requires Accepts(a, task) && SameButHidden(a, b, Stepper(task), task.protection)
    ensures Accepts(b, task) && Run(b, Stepper(task)) == Run(a, Stepper(task))
  {
    StepperIsDiscreet(task);
    HiddenTextIsIgnored(a, b, |a|, Stepper(task), task.protection);
    assert a[..|a|] == a && b[..|b|] == b;
  }

  lemma {:induction false} OutputSameButHidden(lines: seq<string>, step: (State, string) -> Option<Move>, protection: Protection)
    requires Run(lines, step).Some? && Discreet(step, protection)
    ensures SameButHidden(lines, Run(lines, step).value.output, step, protection)
  {
    WholeOutput(lines, step, protection);
  }

  predicate CleanLines(lines: seq<string>) {
    forall i :: 0 <= i < |lines| ==>
      && lines[i] != [] && Last(lines[i]) == '\n' && '\r' !in lines[i] && '\0' !in lines[i]
      && forall k :: 0 <= k < |lines[i]| - 1 ==> lines[i][k] != '\n'
  }

  lemma {:induction false} FlattenClean(lines: seq<string>)
    requires CleanLines(lines) && lines != []
    ensures IsDiffText(Flatten(lines)) && LfLines(Flatten(lines)) == lines
  {
    forall i | 0 <= i < |lines| ensures IsLine(lines[i], IsNewline) && IsNewline(Last(lines[i])) {
    }
    LinesUnique(lines, IsNewline);
    FlattenText(lines);
  }

  lemma {:induction false} FlattenText(lines: seq<string>)
    requires CleanLines(lines) && lines != []
    ensures IsDiffText(Flatten(lines))
  {
    if |lines| == 1 {
      assert Flatten(lines) == lines[0];
    } else {
      FlattenText(lines[1..]);
      assert Last(Flatten(lines)) == Last(Flatten(lines[1..]));
    }
  }

  lemma {:induction false} FlattenHas(lines: seq<string>, i: nat)
    requires i < |lines|
    ensures forall c :: c in lines[i] ==> c in Flatten(lines)
  {
    if i > 0 {
      FlattenHas(lines[1..], i - 1);
    }
  }

  lemma {:induction false} TextIsClean(text: string)
    requires IsDiffText(text)
    ensures CleanLines(LfLines(text)) && LfLines(text) != []
  {
    var lines := LfLines(text);
    LinesSound(text, IsNewline);
    assert Terminated(text, IsNewline);
    forall i | 0 <= i < |lines|
      ensures lines[i] != [] && Last(lines[i]) == '\n' && '\r' !in lines[i] && '\0' !in lines[i]
      ensures forall k :: 0 <= k < |lines[i]| - 1 ==> lines[i][k] != '\n'
    {
      FlattenHas(lines, i);
      assert IsLine(lines[i], IsNewline);
      if i == |lines| - 1 {
        assert !Open(lines, IsNewline);
      }
    }
  }

  /** Redacting again changes nothing. */
  lemma {:induction false} RedactTwice(text: string, task: Task)
    requires Redact(text, task).Some?
    ensures Redact(Redact(text, task).value, task) == Redact(text, task)
  {
    var lines := LfLines(text);
    var output := Run(lines, Stepper(task)).value.output;
    StepperIsDiscreet(task);
    OutputSameButHidden(lines, Stepper(task), task.protection);
    RedactionIsBlind(lines, output, task);
    TextIsClean(text);
    OutputIsClean(lines, task);
    FlattenClean(output);
  }

  lemma {:induction false} OutputIsClean(lines: seq<string>, task: Task)
    requires Accepts(lines, task) && CleanLines(lines) && lines != []
    ensures CleanLines(Run(lines, Stepper(task)).value.output) && Run(lines, Stepper(task)).value.output != []
  {
    StepperIsDiscreet(task);
    WholeOutput(lines, Stepper(task), task.protection);
    var output := Run(lines, Stepper(task)).value.output;
    assert forall i :: 0 <= i < |lines| ==> output[i] == SENTINEL_LINE || output[i] == lines[i];
    SentinelIsClean();
    StillClean(lines, output, SENTINEL_LINE);
  }

  lemma {:induction false} SentinelIsClean()
    ensures CleanLines([SENTINEL_LINE])
  {
    assert SENTINEL_LINE == "-[REDACTED_PRIVATE_KEY_MATERIAL]" + "\n";
  }

  lemma {:induction false} StillClean(lines: seq<string>, output: seq<string>, sentinel: string)
    requires CleanLines(lines) && CleanLines([sentinel]) && |output| == |lines|
    requires forall i :: 0 <= i < |lines| ==> output[i] == sentinel || output[i] == lines[i]
    ensures CleanLines(output)
  {
    assert [sentinel][0] == sentinel;
  }

  // ----- every protected line is met, as a deletion

  lemma {:induction false} SeenMeans(lines: seq<string>, n: nat, step: (State, string) -> Option<Move>, protection: Protection, path: string, number: nat)
    requires Run(lines, step).Some? && Discreet(step, protection) && n <= |lines|
    requires (path, number) in StateAt(lines, n, step).seen
    ensures exists i :: 0 <= i < n && IsDeletionAt(StateAt(lines, i, step), lines[i], path, number)
    decreases n
  {
    if n > 0 {
      SeenNext(lines, n - 1, step, protection, path, number);
      if (path, number) in StateAt(lines, n - 1, step).seen {
        SeenMeans(lines, n - 1, step, protection, path, number);
      }
    }
  }

  /** A coordinate is seen after a line if it was before, or the line deletes it. */
  lemma {:induction false} SeenNext(lines: seq<string>, n: nat, step: (State, string) -> Option<Move>, protection: Protection, path: string, number: nat)
    requires Run(lines, step).Some? && Discreet(step, protection) && n < |lines|
    requires (path, number) in StateAt(lines, n + 1, step).seen
    ensures (path, number) in StateAt(lines, n, step).seen || IsDeletionAt(StateAt(lines, n, step), lines[n], path, number)
  {
    RunStep(lines, n, step);
    var state := StateAt(lines, n, step);
    assert StateAt(lines, n + 1, step) == step(state, lines[n]).value.state;
    assert (path, number) in NewlySeen(state, lines[n], protection) ==> IsDeletionAt(state, lines[n], path, number);
  }

  /** In an accepted diff every protected line is deleted somewhere, and none is kept as context. */
  lemma {:induction false} ProtectedLinesAreDeleted(lines: seq<string>, task: Task, path: string, n: nat)
    requires Accepts(lines, task) && IsProtected(task.protection, path, n)
    ensures exists i :: 0 <= i < |lines| && IsDeletionAt(StateAt(lines, i, Stepper(task)), lines[i], path, n)
    ensures forall i :: 0 <= i < |lines| ==> !IsContextAt(StateAt(lines, i, Stepper(task)), lines[i], path, n)
  {
    StepperIsDiscreet(task);
    assert lines[..|lines|] == lines;
    SeenMeans(lines, |lines|, Stepper(task), task.protection, path, n);
    forall i | 0 <= i < |lines| ensures !IsContextAt(StateAt(lines, i, Stepper(task)), lines[i], path, n) {
      RunStep(lines, i, Stepper(task));
    }
  }
}

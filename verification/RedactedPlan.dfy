/** The redactor and the deletion plan: a diff that deletes exactly the planned lines is accepted and
    shows none of them; the same two texts also have a diff that is refused. */
module RedactedPlan {
  import opened LineSplitting
  import opened RepositoryPaths
  import opened DiffRedaction
  import opened DiffGrammar
  import opened DiffAcceptance
  import opened CanonicalDiff
  import opened ProtectedLines
  import Pairing = MarkerPairing
  import Deletions = DeletionPatch
  import Plans = PrivateKeyPlan

  // ----- hunks in order touch each old line once

  predicate InOrder(hunks: seq<DiffHunk>) {
    hunks != [] ==>
      && InOrder(Front(hunks))
      && (|hunks| > 1 ==> Last(Front(hunks)).c.oldStart + Last(Front(hunks)).c.oldCount <= Last(hunks).c.oldStart)
  }

  predicate AllInOrder(files: seq<DiffFile>) { files != [] ==> AllInOrder(Front(files)) && InOrder(Last(files).hunks) }

  lemma {:induction false} BodyRange(body: seq<string>, start: nat, sign: char, n: nat)
    requires BodyTouches(body, start, sign, n) && sign in [' ', '-']
    ensures start <= n < start + OldLines(body)
  {
    if BodyTouches(Front(body), start, sign, n) {
      BodyRange(Front(body), start, sign, n);
    }
  }

  lemma {:induction false} BodyOnce(body: seq<string>, start: nat, n: nat)
    ensures !(BodyTouches(body, start, ' ', n) && BodyTouches(body, start, '-', n))
  {
    if body != [] {
      BodyOnce(Front(body), start, n);
      if BodyTouches(Front(body), start, ' ', n) {
        BodyRange(Front(body), start, ' ', n);
      }
      if BodyTouches(Front(body), start, '-', n) {
        BodyRange(Front(body), start, '-', n);
      }
    }
  }

  lemma {:induction false} HunksRange(hunks: seq<DiffHunk>, lexer: Lexer, sign: char, n: nat)
    requires HunksOk(hunks, lexer) && InOrder(hunks) && HunksTouch(hunks, sign, n) && sign in [' ', '-']
    ensures n < Last(hunks).c.oldStart + Last(hunks).c.oldCount
    ensures BodyTouches(Last(hunks).body, Last(hunks).c.oldStart, sign, n) <==> Last(hunks).c.oldStart <= n
  {
    var hunk := Last(hunks);
    if HunksTouch(Front(hunks), sign, n) {
      HunksRange(Front(hunks), lexer, sign, n);
    }
    if BodyTouches(hunk.body, hunk.c.oldStart, sign, n) {
      BodyRange(hunk.body, hunk.c.oldStart, sign, n);
    }
  }

  lemma {:induction false} HunksOnce(hunks: seq<DiffHunk>, lexer: Lexer, n: nat)
    requires HunksOk(hunks, lexer) && InOrder(hunks)
    ensures !(HunksTouch(hunks, ' ', n) && HunksTouch(hunks, '-', n))
  {
    if HunksTouch(hunks, ' ', n) && HunksTouch(hunks, '-', n) {
      HunksRange(hunks, lexer, ' ', n);
      HunksRange(hunks, lexer, '-', n);
      HunksOnce(Front(hunks), lexer, n);
      BodyOnce(Last(hunks).body, Last(hunks).c.oldStart, n);
    }
  }

  lemma {:induction false} TouchedPath(files: seq<DiffFile>, lexer: Lexer, sign: char, path: string, n: nat)
    requires FilesOk(files, lexer) && FilesTouch(files, sign, path, n)
    ensures path == Last(files).heads.path || PathLess(path, Last(files).heads.path)
  {
    if FilesTouch(Front(files), sign, path, n) {
      TouchedPath(Front(files), lexer, sign, path, n);
      if path != Last(Front(files)).heads.path {
        PathLessTransitive(path, Last(Front(files)).heads.path, Last(files).heads.path);
      }
    }
  }

  lemma {:induction false} EarlierPath(files: seq<DiffFile>, lexer: Lexer, sign: char, n: nat)
    requires files != [] && FilesOk(files, lexer)
    ensures !FilesTouch(Front(files), sign, Last(files).heads.path, n)
  {
    var path := Last(files).heads.path;
    if FilesTouch(Front(files), sign, path, n) {
      TouchedPath(Front(files), lexer, sign, path, n);
      Plans.NotItself(path, 0);
      if path != Last(Front(files)).heads.path {
        PathLessTransitive(path, Last(Front(files)).heads.path, path);
      }
      assert false;
    }
  }

  lemma {:induction false} FilesOnce(files: seq<DiffFile>, lexer: Lexer, path: string, n: nat)
    requires FilesOk(files, lexer) && AllInOrder(files)
    ensures !(FilesTouch(files, ' ', path, n) && FilesTouch(files, '-', path, n))
  {
    if files != [] {
      FilesOnce(Front(files), lexer, path, n);
      if path == Last(files).heads.path {
        EarlierPath(files, lexer, ' ', n);
        EarlierPath(files, lexer, '-', n);
        HunksOnce(Last(files).hunks, lexer, n);
      }
    }
  }

  // ----- a diff that deletes exactly the protected lines

  ghost predicate DeletesExactly(files: seq<DiffFile>, protection: Protection) {
    forall path, n: nat :: FilesTouch(files, '-', path, n) <==> IsProtected(protection, path, n)
  }

  /** It is accepted. */
  lemma {:induction false} ExactIsAccepted(files: seq<DiffFile>, task: Task)
    requires IsCanonical(files, task.otherControl) && AllInOrder(files) && DeletesExactly(files, task.protection)
    ensures Accepts(SpellFiles(files), task)
  {
    forall path, n: nat | IsProtected(task.protection, path, n)
      ensures FilesTouch(files, '-', path, n) && !FilesTouch(files, ' ', path, n)
    {
      assert FilesTouch(files, '-', path, n);
      FilesOnce(files, GitLexer(task.otherControl), path, n);
    }
    CanonicalIsAccepted(files, task);
  }

  lemma {:induction false} TouchesGrow(lines: seq<string>, i: nat, lexer: Lexer, sign: char, path: string, n: nat)
    requires i <= |lines| && Touches(ReadingOf(lines[..i], Reader(lexer)), sign, path, n)
    ensures Touches(ReadingOf(lines, Reader(lexer)), sign, path, n)
    decreases |lines|
  {
    if i < |lines| {
      assert Front(lines)[..i] == lines[..i];
      TouchesGrow(Front(lines), i, lexer, sign, path, n);
      TouchesMore(ReadingOf(Front(lines), Reader(lexer)), Last(lines), lexer, sign, path, n);
    } else {
      assert lines[..i] == lines;
    }
  }

  /** The line is a deletion. */
  predicate IsDeletion(lines: seq<string>, i: nat, step: (State, string) -> Option<Move>)
    requires i < |lines|
  {
    StateAt(lines, i, step).at.Inside? && lines[i] != [] && lines[i][0] == '-'
  }

  /** A deletion deletes an old line of the diff. */
  lemma {:induction false} DeletionTouches(lines: seq<string>, i: nat, step: (State, string) -> Option<Move>, lexer: Lexer, protection: Protection)
    requires Mirrors(step, lexer, protection) && Discreet(step, protection)
    requires Run(lines, step).Some? && i < |lines| && IsDeletion(lines, i, step)
    ensures
      var at := StateAt(lines, i, step).at;
      Touches(ReadingOf(lines, Reader(lexer)), '-', at.path, at.c.oldStart + at.oldSeen)
  {
    var state, r := StateAt(lines, i, step), ReadingOf(lines[..i], Reader(lexer));
    RunStep(lines, i, step);
    RunReads(lines[..i], step, lexer, protection);
    assert Front(lines[..i + 1]) == lines[..i];
    InsideTouches(state, r, lines[i]);
    TouchesMore(r, lines[i], lexer, '-', state.at.path, state.at.c.oldStart + state.at.oldSeen);
    TouchesGrow(lines, i + 1, lexer, '-', state.at.path, state.at.c.oldStart + state.at.oldSeen);
  }

  lemma {:induction false} InsideTouches(state: State, r: Reading, line: string)
    requires IsAt(state, r) && state.at.Inside? && line != [] && line[0] == '-'
    ensures NewTouch(r, line, '-', state.at.path, state.at.c.oldStart + state.at.oldSeen)
  {
  }

  lemma {:induction false} DeletionIsProtected(files: seq<DiffFile>, lines: seq<string>, i: nat, step: (State, string) -> Option<Move>,
      lexer: Lexer, protection: Protection)
    requires Mirrors(step, lexer, protection) && Discreet(step, protection) && TellsApart(lexer)
    requires files != [] && FilesOk(files, lexer) && DeletesExactly(files, protection)
    requires lines == SpellFiles(files) && Run(lines, step).Some? && i < |lines| && IsDeletion(lines, i, step)
    ensures
      var at := StateAt(lines, i, step).at;
      IsProtected(protection, at.path, at.c.oldStart + at.oldSeen)
  {
    DeletionTouches(lines, i, step, lexer, protection);
    WholeIsRead(files, lexer);
    TouchesWhole(files);
  }

  lemma {:induction false} ProtectedIsHidden(lines: seq<string>, i: nat, step: (State, string) -> Option<Move>, protection: Protection)
    requires Run(lines, step).Some? && Discreet(step, protection) && i < |lines| && IsDeletion(lines, i, step)
    requires var at := StateAt(lines, i, step).at; IsProtected(protection, at.path, at.c.oldStart + at.oldSeen)
    ensures |Run(lines, step).value.output| == |lines| && Run(lines, step).value.output[i] == SENTINEL_LINE
  {
    WholeOutput(lines, step, protection);
  }

  /** Every deletion shows as the sentinel. */
  ghost predicate HidesDeletions(lines: seq<string>, step: (State, string) -> Option<Move>) {
    && Run(lines, step).Some? && |Run(lines, step).value.output| == |lines|
    && forall i :: 0 <= i < |lines| && IsDeletion(lines, i, step) ==> Run(lines, step).value.output[i] == SENTINEL_LINE
  }

  lemma {:induction false} DeletionsAreHidden(files: seq<DiffFile>, lines: seq<string>, step: (State, string) -> Option<Move>,
      lexer: Lexer, protection: Protection)
    requires Mirrors(step, lexer, protection) && Discreet(step, protection) && TellsApart(lexer)
    requires files != [] && FilesOk(files, lexer) && DeletesExactly(files, protection)
    requires lines == SpellFiles(files) && Run(lines, step).Some?
    ensures HidesDeletions(lines, step)
  {
    WholeOutput(lines, step, protection);
    forall i | 0 <= i < |lines| && IsDeletion(lines, i, step) ensures Run(lines, step).value.output[i] == SENTINEL_LINE {
      DeletionIsProtected(files, lines, i, step, lexer, protection);
      ProtectedIsHidden(lines, i, step, protection);
    }
  }

  /** It shows none of its deletions. */
  lemma {:induction false} ExactIsHidden(files: seq<DiffFile>, task: Task)
    requires IsCanonical(files, task.otherControl) && DeletesExactly(files, task.protection) && Accepts(SpellFiles(files), task)
    ensures HidesDeletions(SpellFiles(files), Stepper(task))
  {
    StepperMirrors(task);
    StepperIsDiscreet(task);
    GitTellsApart(task.otherControl);
    DeletionsAreHidden(files, SpellFiles(files), Stepper(task), GitLexer(task.otherControl), task.protection);
  }

  /** The lines of the plan, as the redactor is given them. */
  ghost predicate Protects(protection: Protection, items: seq<ProtectedRange>) {
    forall path, n: nat :: IsProtected(protection, path, n) <==> IsListed(items, path, n)
  }

  ghost predicate DeletesPlanned(diff: seq<DiffFile>, plan: seq<Deletions.ProtectedFile>) {
    forall path, n: nat :: FilesTouch(diff, '-', path, n) <==> IsPlanned(plan, path, n)
  }

  /** A diff whose deletions are exactly the lines of the plan is accepted with the ranges of the
      scan, and shows none of them. */
  lemma {:induction false} PlanIsRedacted(files: seq<Plans.AllowedFile>, find: string -> seq<Pairing.Marker>, plan: seq<Deletions.ProtectedFile>,
      items: seq<ProtectedRange>, diff: seq<DiffFile>, task: Task)
    requires Plans.PlanOf(files, find, plan) && AreFound(items, files, find) && Protects(task.protection, items)
    requires IsCanonical(diff, task.otherControl) && AllInOrder(diff) && DeletesPlanned(diff, plan)
    ensures Accepts(SpellFiles(diff), task) && HidesDeletions(SpellFiles(diff), Stepper(task))
  {
    forall path, n: nat ensures FilesTouch(diff, '-', path, n) <==> IsProtected(task.protection, path, n) {
      ListedIsPlanned(items, files, find, plan, path, n);
    }
    ExactIsAccepted(diff, task);
    ExactIsHidden(diff, task);
  }
}

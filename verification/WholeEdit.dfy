/** Any change of a file can be said in a patch: all its lines deleted, all the new ones added. The
    parser accepts that patch and applying it gives the new text. */
module WholeEdit {
  import opened LineSplitting
  import opened HunkHeaders
  import opened RepositoryPaths
  import opened PrivateKeyRanges
  import opened WirePatch
  import opened WirePatchText
  import opened PatchApplication
  import opened DeletionPatch

  /** The addition of one line: a line without LF brings its marker. */
  function AddedLine(line: string): seq<PatchLine> {
    if line != [] && Last(line) == '\n' then [PatchLine(Addition, Front(line))]
    else [PatchLine(Addition, line), PatchLine(NoNewline, "")]
  }

  function AddedLines(lines: seq<string>): seq<PatchLine> {
    if lines == [] then [] else AddedLines(Front(lines)) + AddedLine(Last(lines))
  }

  // ----- counts

  lemma {:induction false} OneMoreAdded(front: seq<PatchLine>, line: string)
    requires BodyOk(front)
    ensures
      var more := front + AddedLine(line);
      OldSide(more) == OldSide(front) && NewSide(more) == NewSide(front) + 1 && Changed(more) == Changed(front) + 1 && BodyOk(more)
  {
    var added := AddedLine(line)[0];
    OneMoreLine(front, added);
    if |AddedLine(line)| == 2 {
      OneMoreLine(front + [added], AddedLine(line)[1]);
      assert front + AddedLine(line) == front + [added] + [AddedLine(line)[1]];
    }
  }

  lemma {:induction false} AddedCount(front: seq<PatchLine>, lines: seq<string>)
    requires BodyOk(front)
    ensures
      var more := front + AddedLines(lines);
      && OldSide(more) == OldSide(front) && NewSide(more) == NewSide(front) + |lines| && Changed(more) == Changed(front) + |lines|
      && BodyOk(more)
  {
    if lines == [] {
      assert front + AddedLines(lines) == front;
    } else {
      AddedCount(front, Front(lines));
      OneMoreAdded(front + AddedLines(Front(lines)), Last(lines));
      assert front + AddedLines(Front(lines)) + AddedLine(Last(lines)) == front + AddedLines(lines);
    }
  }

  // ----- applying

  lemma {:induction false} ApplyAddedLine(lines0: seq<string>, before: seq<PatchLine>, line: string, start: Progress, p: Progress)
    requires line != [] && ApplyLines(lines0, before + AddedLine(line), |before|, start) == Some(p)
    ensures
      var body := before + AddedLine(line);
      ApplyLines(lines0, body, |body|, start) == Some(p.(output := p.output + [line]))
  {
    var body, n := before + AddedLine(line), |before|;
    assert body[n].kind == Addition;
    if Last(line) == '\n' {
      assert FileLine(body, n) == line;
    } else {
      assert body[n + 1].kind == NoNewline;
      assert FileLine(body, n) == line;
      assert ApplyLines(lines0, body, n + 1, start) == Some(p.(output := p.output + [line]));
    }
  }

  lemma {:induction false} ApplyAddedLines(lines0: seq<string>, before: seq<PatchLine>, lines: seq<string>, start: Progress, p: Progress)
    requires ApplyLines(lines0, before, |before|, start) == Some(p) && forall i :: 0 <= i < |lines| ==> lines[i] != []
    ensures
      var body := before + AddedLines(lines);
      ApplyLines(lines0, body, |body|, start) == Some(p.(output := p.output + lines))
  {
    if lines == [] {
      assert before + AddedLines(lines) == before && p.output + lines == p.output;
    } else {
      var front, last := before + AddedLines(Front(lines)), Last(lines);
      var q := p.(output := p.output + Front(lines));
      assert last == lines[|lines| - 1];
      ApplyAddedLines(lines0, before, Front(lines), start, p);
      ApplyLonger(lines0, front, AddedLine(last), |front|, start);
      ApplyAddedLine(lines0, front, last, start, q);
      Regrouped(before, AddedLines(Front(lines)), AddedLine(last));
      Regrouped(p.output, Front(lines), [last]);
      assert Front(lines) + [last] == lines;
    }
  }

  lemma {:induction false} Regrouped<T>(a: seq<T>, b: seq<T>, c: seq<T>)
    ensures a + b + c == a + (b + c)
  {
  }

  // ----- the patch

  function StartOf(lines: seq<string>): nat { if lines == [] then 0 else 1 }

  function EditHunk(before: seq<string>, after: seq<string>): PatchHunk {
    PatchHunk(Coordinates(StartOf(before), |before|, StartOf(after), |after|), DeletedLines(before) + AddedLines(after))
  }

  lemma {:induction false} EditHunkOk(before: seq<string>, after: seq<string>, isNew: bool)
    requires (before != [] || after != []) && (isNew ==> before == [])
    ensures BodyOk(EditHunk(before, after).lines) && CountsOk(EditHunk(before, after), isNew)
    ensures Changed(EditHunk(before, after).lines) == |before| + |after|
  {
    DeletedLinesCount(before);
    AddedCount(DeletedLines(before), after);
    assert EditHunk(before, after).lines == [] ==> Changed(EditHunk(before, after).lines) == 0;
  }

  lemma {:induction false} EditLinesApply(before: seq<string>, after: seq<string>)
    requires WellSplit(before, IsNewline) && WellSplit(after, IsNewline)
    ensures
      var body := EditHunk(before, after).lines;
      ApplyLines(before, body, |body|, Progress(0, [])) == Some(Progress(|before|, [] + after))
  {
    ApplyDeletedLines(before, 0, before, []);
    ApplyAddedLines(before, DeletedLines(before), after, Progress(0, []), Progress(|before|, []));
  }

  lemma {:induction false} NothingCopied(lines: seq<string>)
    ensures [] == [] + lines[0..0] && lines + [] == lines && [] + lines == lines && lines[|lines|..] == []
  {
  }

  lemma {:induction false} EditHunkApplies(before: seq<string>, after: seq<string>)
    requires WellSplit(before, IsNewline) && WellSplit(after, IsNewline)
    ensures ApplyHunk(before, EditHunk(before, after), Progress(0, [])) == Some(Progress(|before|, after))
  {
    EditLinesApply(before, after);
    NothingCopied(before);
    NothingCopied(after);
    CopyThenApply(before, EditHunk(before, after), Progress(0, []), 0, []);
  }

  lemma {:induction false} OneHunkApplies(lines: seq<string>, hunk: PatchHunk)
    ensures ApplyHunks(lines, [hunk]) == ApplyHunk(lines, hunk, Progress(0, []))
  {
    assert Front([hunk]) == [] && Last([hunk]) == hunk;
  }

  /** Applying it turns the one text into the other. */
  lemma {:induction false} EditApplies(before: seq<string>, after: seq<string>)
    requires WellSplit(before, IsNewline) && WellSplit(after, IsNewline)
    ensures ApplyFile(before, [EditHunk(before, after)]) == Some(after)
  {
    EditHunkApplies(before, after);
    OneHunkApplies(before, EditHunk(before, after));
    NothingCopied(before);
    NothingCopied(after);
  }

  // ----- what the parser makes of it

  predicate NoDashes(lines: seq<string>) { forall i :: 0 <= i < |lines| ==> !("-- " <= Content(lines[i])) }

  predicate AreSafe(lines: seq<string>, other: char -> bool) { forall i :: 0 <= i < |lines| ==> SafeText(Content(lines[i]), other) }

  predicate BodyGood(lines: seq<PatchLine>, other: char -> bool) {
    forall k :: 0 <= k < |lines| ==> IsBodyLine(lines[k]) && SafeText(lines[k].content, other)
  }

  lemma {:induction false} DeletedGood(lines: seq<string>, other: char -> bool)
    requires NoDashes(lines) && AreSafe(lines, other) && forall i :: 0 <= i < |lines| ==> lines[i] != []
    ensures BodyGood(DeletedLines(lines), other)
  {
    if lines != [] {
      DeletedGood(Front(lines), other);
      assert Last(lines) == lines[|lines| - 1];
    }
  }

  lemma {:induction false} AddedGood(lines: seq<string>, other: char -> bool)
    requires AreSafe(lines, other) && forall i :: 0 <= i < |lines| ==> lines[i] != []
    ensures BodyGood(AddedLines(lines), other)
  {
    if lines != [] {
      AddedGood(Front(lines), other);
      assert Last(lines) == lines[|lines| - 1];
    }
  }

  lemma {:induction false} EditGood(before: seq<string>, after: seq<string>, other: char -> bool)
    requires WellSplit(before, IsNewline) && WellSplit(after, IsNewline)
    requires NoDashes(before) && AreSafe(before, other) && AreSafe(after, other)
    ensures BodyGood(EditHunk(before, after).lines, other)
  {
    assert forall i :: 0 <= i < |before| ==> IsLine(before[i], IsNewline);
    assert forall i :: 0 <= i < |after| ==> IsLine(after[i], IsNewline);
    DeletedGood(before, other);
    AddedGood(after, other);
  }

  lemma {:induction false} OneHunkOk(hunk: PatchHunk, isNew: bool)
    requires BodyOk(hunk.lines) && CountsOk(hunk, isNew)
    ensures HunksOk([hunk], isNew) && ChangedInHunks([hunk]) == Changed(hunk.lines)
  {
    assert Front([hunk]) == [] && Last([hunk]) == hunk;
  }

  lemma {:induction false} OneHunkGood(hunk: PatchHunk, other: char -> bool)
    requires BodyGood(hunk.lines, other)
    ensures LinesSpellable([hunk]) && HunksSafe([hunk], other)
  {
    assert Front([hunk]) == [] && Last([hunk]) == hunk;
    assert LinesSpellable([]) && HunkSpellable(hunk) && HunksSafe([], other);
  }

  lemma {:induction false} OneFileOk(file: PatchFile, request: Request)
    requires file.path in request.allowedPaths && file.hunks != [] && HunksOk(file.hunks, file.isNew)
    ensures FilesOk([file], request) && ChangedInFiles([file]) == ChangedInHunks(file.hunks)
  {
    assert Front([file]) == [] && Last([file]) == file;
    assert FilesOk([], request) && FileFits(file, [], request) && ChangedInFiles([]) == 0;
  }

  /** What the round trip of a patch asks for. */
  ghost predicate CanBeRead(files: seq<PatchFile>, request: Request) {
    && FilesOk(files, request) && FilesSafe(files, request.otherControl)
    && forall i :: 0 <= i < |files| ==> FileSpellable(files[i], request.otherControl)
  }

  lemma {:induction false} OneFile(file: PatchFile, hunk: PatchHunk, request: Request)
    requires file.hunks == [hunk] && file.path in request.allowedPaths && IsRepositoryPath(file.path, request.otherControl)
    requires BodyOk(hunk.lines) && CountsOk(hunk, file.isNew) && BodyGood(hunk.lines, request.otherControl)
    requires SafeText(file.path, request.otherControl)
    ensures CanBeRead([file], request) && ChangedInFiles([file]) == Changed(hunk.lines)
  {
    OneHunkOk(hunk, file.isNew);
    OneHunkGood(hunk, request.otherControl);
    OneFileOk(file, request);
  }

  /** The lines of `after` in place of the lines of `before`. */
  predicate IsEdit(file: PatchFile, before: string, after: string) {
    && (before != "" || after != "") && (file.isNew ==> before == "")
    && file.hunks == [EditHunk(LfLines(before), LfLines(after))]
  }

  /** No deleted line starts with "-- ", and every character may stand in a patch. */
  predicate EditSafe(path: string, before: string, after: string, other: char -> bool) {
    && SafeText(path, other)
    && NoDashes(LfLines(before)) && AreSafe(LfLines(before), other) && AreSafe(LfLines(after), other)
  }

  function EditSize(before: string, after: string): nat { |LfLines(before)| + |LfLines(after)| }

  lemma {:induction false} EditCanBeRead(before: string, after: string, file: PatchFile, request: Request)
    requires file.path in request.allowedPaths && IsRepositoryPath(file.path, request.otherControl)
    requires IsEdit(file, before, after) && EditSafe(file.path, before, after, request.otherControl)
    ensures CanBeRead([file], request) && ChangedInFiles([file]) == EditSize(before, after)
  {
    var was, now := LfLines(before), LfLines(after);
    LinesSound(before, IsNewline);
    LinesSound(after, IsNewline);
    EditHunkOk(was, now, file.isNew);
    EditGood(was, now, request.otherControl);
    OneFile(file, EditHunk(was, now), request);
  }

  lemma {:induction false} ReadBack(file: PatchFile, changed: nat, request: Request)
    requires IsCanonicalPaths(request.allowedPaths, 1, 32, request.otherControl) && AsciiIsPlain(request.otherControl)
    requires CanBeRead([file], request) && ChangedInFiles([file]) == changed
    requires 1 <= request.policy.maxPatchPaths && changed <= request.policy.maxChangedLines
    requires Utf8Length(PrintPatch([file])) <= request.policy.maxPatchBytes
    ensures ParseWirePatch(PrintPatch([file]), request) == Ok(ParsedPatch(PrintPatch([file]), [file], changed))
  {
    RoundTrip([file], request);
  }

  lemma {:induction false} TextEditApplies(before: string, after: string)
    ensures ApplyFile(LfLines(before), [EditHunk(LfLines(before), LfLines(after))]) == Some(LfLines(after))
  {
    LinesSound(before, IsNewline);
    LinesSound(after, IsNewline);
    EditApplies(LfLines(before), LfLines(after));
  }

  /** For every allowed path and any two texts, not both empty, the first one empty if the file is new: the
      patch is accepted when no deleted line starts with "-- ", every character may stand in a patch and
      the limits hold; and applying what the parser returns gives the new text. */
  lemma {:induction false} EditIsAccepted(before: string, after: string, file: PatchFile, request: Request)
    requires IsCanonicalPaths(request.allowedPaths, 1, 32, request.otherControl) && AsciiIsPlain(request.otherControl)
    requires file.path in request.allowedPaths && IsEdit(file, before, after)
    requires EditSafe(file.path, before, after, request.otherControl)
    requires 1 <= request.policy.maxPatchPaths && EditSize(before, after) <= request.policy.maxChangedLines
    requires Utf8Length(PrintPatch([file])) <= request.policy.maxPatchBytes
    ensures ParseWirePatch(PrintPatch([file]), request) == Ok(ParsedPatch(PrintPatch([file]), [file], EditSize(before, after)))
    ensures ApplyFile(LfLines(before), file.hunks) == Some(LfLines(after))
  {
    PathIsRepositoryPath(file.path, request);
    EditCanBeRead(before, after, file, request);
    TextEditApplies(before, after);
    ReadBack(file, EditSize(before, after), request);
  }

  lemma {:induction false} PathIsRepositoryPath(path: string, request: Request)
    requires IsCanonicalPaths(request.allowedPaths, 1, 32, request.otherControl) && path in request.allowedPaths
    ensures IsRepositoryPath(path, request.otherControl)
  {
    var i :| 0 <= i < |request.allowedPaths| && request.allowedPaths[i] == path;
  }
}

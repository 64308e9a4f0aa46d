/** Exactly when the strict parser accepts the generated deletion patch. */
module DeletionAcceptance {
  import opened LineSplitting
  import opened HunkHeaders
  import opened RepositoryPaths
  import opened WirePatch
  import opened WirePatchGrammar
  import opened WirePatchText

  // ----- every line of an accepted patch was read as something

  predicate ReadAt(views: seq<View>, k: nat)
    requires k < |views|
  {
    || HeadAt(views, k).Some? || views[k].newPath.Some? || views[k].header.Some?
    || (views[k].line.Some? && !Stops(views[k]))
  }

  lemma {:induction false} HunksRead(views: seq<View>, from: nat, hunks: seq<PatchHunk>, k: nat)
    requires HunksAt(views, from, hunks) && from <= k < from + HunksSize(hunks)
    ensures k < |views| && ReadAt(views, k)
  {
    var front := Front(hunks);
    var start := from + HunksSize(front);
    if k < start {
      HunksRead(views, from, front, k);
    } else if k > start {
      assert views[start + 1 + (k - start - 1)].line == Some(Last(hunks).lines[k - start - 1]);
    }
  }

  lemma {:induction false} FilesRead(views: seq<View>, files: seq<PatchFile>, k: nat)
    requires FilesAt(views, 0, files) && k < FilesSize(files)
    ensures k < |views| && ReadAt(views, k)
  {
    var front := Front(files);
    var start := FilesSize(front);
    if k < start {
      FilesRead(views, front, k);
    } else if k >= start + 2 {
      HunksRead(views, start + 2, Last(files).hunks, k);
    }
  }

  /** What being read says about the text of a line. */
  ghost predicate ReadsText(view: string -> View) {
    forall raw :: Says(view(raw), raw)
  }

  predicate Says(view: View, raw: string) {
    && (view.header.Some? || view.line.Some? || view.oldHead.Some? || view.newPath.Some? ==> EndsWithLf(raw))
    && (view.newPath.Some? ==> raw[0] == '+')
    && ("--- " <= raw ==> view.startsFile && view.header.None?)
  }

  lemma {:induction false} ViewerReadsText(other: char -> bool)
    ensures ReadsText(Viewer(other))
  {
    forall raw ensures Says(Viewer(other)(raw), raw) {
      SaysText(raw, other);
    }
  }

  lemma {:induction false} SaysText(raw: string, other: char -> bool)
    ensures Says(ViewOf(raw, other), raw)
  {
    var view := ViewOf(raw, other);
    assert "@@ "[0] == '@' && "--- "[0] == '-' && "+++ "[0] == '+';
    if view.header.Some? {
      HeaderIsPrinted(Front(raw));
      assert raw[0] == Front(raw)[0];
    }
    if view.newPath.Some? {
      assert raw[0] == Front(raw)[0];
    }
  }

  predicate PlusFollows(raw: seq<string>, k: nat) { k + 1 < |raw| && raw[k + 1] != [] && raw[k + 1][0] == '+' }

  /** In an accepted patch every line ends with LF, and a line starting "--- " heads a file. */
  lemma {:induction false} ReadLine(raw: seq<string>, k: nat, view: string -> View)
    requires ReadsText(view) && k < |raw| && ReadAt(Views(raw, view), k)
    ensures EndsWithLf(raw[k])
    ensures "--- " <= raw[k] ==> PlusFollows(raw, k)
  {
    var views := Views(raw, view);
    assert views[k] == view(raw[k]) && Says(view(raw[k]), raw[k]);
    if "--- " <= raw[k] {
      assert raw[k][0] == '-';
      assert HeadAt(views, k).Some?;
      assert views[k + 1] == view(raw[k + 1]) && Says(view(raw[k + 1]), raw[k + 1]);
    }
  }

  // ----- a deletion that looks like a file header

  predicate OnlyDeletions(lines: seq<PatchLine>) {
    forall k :: 0 <= k < |lines| ==> lines[k].kind == Deletion || lines[k] == PatchLine(NoNewline, "")
  }

  predicate AreDeletionHunks(hunks: seq<PatchHunk>) {
    hunks == [] || (AreDeletionHunks(Front(hunks)) && OnlyDeletions(Last(hunks).lines))
  }

  predicate NoPlus(raw: seq<string>) { forall k :: 0 <= k < |raw| ==> raw[k] != [] && raw[k][0] != '+' }

  lemma {:induction false} DeletionsHaveNoPlus(hunks: seq<PatchHunk>)
    requires AreDeletionHunks(hunks)
    ensures NoPlus(RenderHunks(hunks))
  {
    if hunks != [] {
      DeletionsHaveNoPlus(Front(hunks));
      var hunk := Last(hunks);
      assert "@@ -"[0] == '@' && HeaderLine(hunk.coordinates)[0] == '@' && NO_NEWLINE_MARKER[0] == '\\';
      assert NoPlus(RenderLines(hunk.lines));
    }
  }

  lemma {:induction false} DashInHunks(hunks: seq<PatchHunk>) returns (k: nat)
    requires AreDeletionHunks(hunks) && !LinesSpellable(hunks)
    ensures k < |RenderHunks(hunks)| && "--- " <= RenderHunks(hunks)[k]
  {
    var front, hunk := RenderHunks(Front(hunks)), Last(hunks);
    if LinesSpellable(Front(hunks)) {
      var j := DashInHunk(hunk);
      k := |front| + j;
    } else {
      k := DashInHunks(Front(hunks));
    }
  }

  lemma {:induction false} DashInHunk(hunk: PatchHunk) returns (k: nat)
    requires OnlyDeletions(hunk.lines) && !HunkSpellable(hunk)
    ensures k < |RenderHunk(hunk)| && "--- " <= RenderHunk(hunk)[k]
  {
    var j :| 0 <= j < |hunk.lines| && !IsBodyLine(hunk.lines[j]);
    k := 1 + j;
    assert RenderHunk(hunk)[1 + j] == RenderLine(hunk.lines[j]);
    RenderedStops(hunk.lines[j]);
  }

  predicate AreDeletionFiles(files: seq<PatchFile>) {
    forall i :: 0 <= i < |files| ==> AreDeletionHunks(files[i].hunks)
  }

  ghost predicate FilesSpellable(files: seq<PatchFile>) {
    forall i :: 0 <= i < |files| ==> LinesSpellable(files[i].hunks)
  }

  /** Such a line is never followed by the other half of a file header. */
  lemma {:induction false} DashInFiles(files: seq<PatchFile>) returns (k: nat)
    requires AreDeletionFiles(files) && !FilesSpellable(files)
    ensures
      var raw := RenderFiles(files);
      k < |raw| && "--- " <= raw[k] && !PlusFollows(raw, k)
  {
    var front, file := RenderFiles(Front(files)), Last(files);
    assert file == files[|files| - 1];
    var body := RenderHunks(file.hunks);
    if FilesSpellable(Front(files)) {
      var j := DashInHunks(file.hunks);
      DeletionsHaveNoPlus(file.hunks);
      k := |front| + 2 + j;
      DashInBody(front, Heads(file), body, j);
    } else {
      k := DashInFiles(Front(files));
      assert OldHeader(file.path, file.isNew)[0] == "--- "[0];
      DashBefore(front, Heads(file) + body, k);
    }
  }

  lemma {:induction false} DashInBody(front: seq<string>, heads: seq<string>, body: seq<string>, j: nat)
    requires |heads| == 2 && j < |body| && "--- " <= body[j] && !PlusFollows(body, j)
    ensures
      var raw, k := front + (heads + body), |front| + 2 + j;
      k < |raw| && "--- " <= raw[k] && !PlusFollows(raw, k)
  {
  }

  lemma {:induction false} DashBefore(front: seq<string>, more: seq<string>, k: nat)
    requires k < |front| && "--- " <= front[k] && !PlusFollows(front, k)
    requires more != [] && more[0] != [] && more[0][0] == '-'
    ensures "--- " <= (front + more)[k] && !PlusFollows(front + more, k)
  {
    assert k + 1 == |front| ==> (front + more)[k + 1] == more[0];
  }

  // ----- an accepted text has no line break but LF

  predicate Only(text: string, allowed: char -> bool) { forall i :: 0 <= i < |text| ==> allowed(text[i]) }

  lemma {:induction false} LinesOnly(lines: seq<string>, allowed: char -> bool, k: nat)
    requires Only(Flatten(lines), allowed) && k < |lines|
    ensures Only(lines[k], allowed)
  {
    var first, rest := lines[0], Flatten(lines[1..]);
    forall i | 0 <= i < |first| ensures allowed(first[i]) {
      assert first[i] == (first + rest)[i];
    }
    if k > 0 {
      forall i | 0 <= i < |rest| ensures allowed(rest[i]) {
        assert rest[i] == (first + rest)[|first| + i];
      }
      LinesOnly(lines[1..], allowed, k - 1);
    }
  }

  lemma {:induction false} FlattenOnly(lines: seq<string>, allowed: char -> bool)
    requires AllOnly(lines, allowed)
    ensures Only(Flatten(lines), allowed)
  {
    if lines != [] {
      assert Only(lines[0], allowed);
      FlattenOnly(lines[1..], allowed);
    }
  }

  predicate AllOnly(raw: seq<string>, allowed: char -> bool) { forall k :: 0 <= k < |raw| ==> Only(raw[k], allowed) }

  predicate IsSafeOrLf(c: char, other: char -> bool) { c == '\n' || IsSafeChar(c, other) }

  function PatchChars(other: char -> bool): char -> bool { c => IsPatchChar(c, other) }

  function SafeOrLf(other: char -> bool): char -> bool { c => IsSafeOrLf(c, other) }

  lemma {:induction false} LfLinesAreSafe(text: string, other: char -> bool)
    requires TextOk(text, other) && forall k :: 0 <= k < |PatchLines(text)| ==> EndsWithLf(PatchLines(text)[k])
    ensures Only(text, SafeOrLf(other))
  {
    var lines := PatchLines(text);
    LinesSound(text, IsLineBreak);
    forall k | 0 <= k < |lines| ensures Only(lines[k], SafeOrLf(other)) {
      LinesOnly(lines, PatchChars(other), k);
      LfLineIsSafe(lines[k], other);
    }
    FlattenOnly(lines, SafeOrLf(other));
  }

  lemma {:induction false} LfLineIsSafe(line: string, other: char -> bool)
    requires IsLine(line, IsLineBreak) && EndsWithLf(line) && Only(line, PatchChars(other))
    ensures Only(line, SafeOrLf(other))
  {
  }

  predicate LineFree(lines: seq<PatchLine>) { forall k :: 0 <= k < |lines| ==> '\n' !in lines[k].content }

  predicate HunksLineFree(hunks: seq<PatchHunk>) {
    hunks == [] || (HunksLineFree(Front(hunks)) && LineFree(Last(hunks).lines))
  }

  lemma {:induction false} LineIsSafe(line: PatchLine, other: char -> bool)
    requires Only(RenderLine(line), SafeOrLf(other)) && '\n' !in line.content && (line.kind == NoNewline ==> line.content == "")
    ensures SafeText(line.content, other)
  {
    if line.kind != NoNewline {
      assert RenderLine(line)[1..|line.content| + 1] == line.content;
      forall i | 0 <= i < |line.content| ensures IsSafeChar(line.content[i], other) {
        assert RenderLine(line)[i + 1] == line.content[i];
      }
    }
  }

  lemma {:induction false} AllOnlyConcat(a: seq<string>, b: seq<string>, allowed: char -> bool)
    requires AllOnly(a + b, allowed)
    ensures AllOnly(a, allowed) && AllOnly(b, allowed)
  {
    forall k | 0 <= k < |a| ensures Only(a[k], allowed) {
      assert (a + b)[k] == a[k];
    }
    forall k | 0 <= k < |b| ensures Only(b[k], allowed) {
      assert (a + b)[|a| + k] == b[k];
    }
  }

  lemma {:induction false} HunksAreSafe(hunks: seq<PatchHunk>, other: char -> bool)
    requires AllOnly(RenderHunks(hunks), SafeOrLf(other)) && HunksLineFree(hunks) && AreDeletionHunks(hunks)
    ensures HunksSafe(hunks, other)
  {
    if hunks != [] {
      var hunk := Last(hunks);
      AllOnlyConcat(RenderHunks(Front(hunks)), RenderHunk(hunk), SafeOrLf(other));
      HunksAreSafe(Front(hunks), other);
      HunkIsSafe(hunk, other);
    }
  }

  lemma {:induction false} HunkIsSafe(hunk: PatchHunk, other: char -> bool)
    requires AllOnly(RenderHunk(hunk), SafeOrLf(other)) && LineFree(hunk.lines) && OnlyDeletions(hunk.lines)
    ensures forall k :: 0 <= k < |hunk.lines| ==> SafeText(hunk.lines[k].content, other)
  {
    forall k | 0 <= k < |hunk.lines| ensures SafeText(hunk.lines[k].content, other) {
      LineStands(hunk, k);
      LineIsSafe(hunk.lines[k], other);
    }
  }

  lemma {:induction false} LineStands(hunk: PatchHunk, k: nat)
    requires k < |hunk.lines|
    ensures |RenderHunk(hunk)| == |hunk.lines| + 1 && RenderHunk(hunk)[k + 1] == RenderLine(hunk.lines[k])
  {
    var header, rest := HeaderLine(hunk.coordinates), RenderLines(hunk.lines);
    assert rest[k] == RenderLine(hunk.lines[k]);
    assert ([header] + rest)[k + 1] == rest[k];
  }

  predicate FilesLineFree(files: seq<PatchFile>) {
    forall i :: 0 <= i < |files| ==> '\n' !in files[i].path && HunksLineFree(files[i].hunks)
  }

  lemma {:induction false} PathIsSafe(path: string, other: char -> bool)
    requires Only(NewHeader(path), SafeOrLf(other)) && '\n' !in path
    ensures SafeText(path, other)
  {
    forall i | 0 <= i < |path| ensures IsSafeChar(path[i], other) {
      assert NewHeader(path)[i + 6] == path[i];
    }
  }

  lemma {:induction false} FilesAreSafe(files: seq<PatchFile>, other: char -> bool)
    requires AllOnly(RenderFiles(files), SafeOrLf(other)) && FilesLineFree(files) && AreDeletionFiles(files)
    ensures FilesSafe(files, other)
  {
    if files != [] {
      var file := Last(files);
      assert file == files[|files| - 1];
      AllOnlyConcat(RenderFiles(Front(files)), RenderFile(file), SafeOrLf(other));
      FilesAreSafe(Front(files), other);
      FileIsSafe(file, other);
    }
  }

  lemma {:induction false} FileIsSafe(file: PatchFile, other: char -> bool)
    requires AllOnly(RenderFile(file), SafeOrLf(other)) && AreDeletionHunks(file.hunks)
    requires '\n' !in file.path && HunksLineFree(file.hunks)
    ensures SafeText(file.path, other) && HunksSafe(file.hunks, other)
  {
    AllOnlyConcat(Heads(file), RenderHunks(file.hunks), SafeOrLf(other));
    HunksAreSafe(file.hunks, other);
    assert Only(Heads(file)[1], SafeOrLf(other));
    PathIsSafe(file.path, other);
  }

  // ----- only the rendered patch can have been parsed

  lemma {:induction false} FilesOkAnyPolicy(files: seq<PatchFile>, a: Request, b: Request)
    requires FilesOk(files, a) && a.allowedPaths == b.allowedPaths
    ensures FilesOk(files, b)
  {
    if files != [] {
      FilesOkAnyPolicy(Front(files), a, b);
    }
  }

  /** The same views, read under two policies, give the same files. */
  lemma {:induction false} OneReading(views: seq<View>, a: seq<PatchFile>, b: seq<PatchFile>, request: Request)
    requires Lexed(views) && FilesAt(views, 0, a) && FilesAt(views, 0, b)
    requires FilesSize(a) == |views| == FilesSize(b) && FilesOk(a, request) && FilesOk(b, request)
    ensures a == b
  {
    var limit := |a| + |b| + ChangedInFiles(a) + ChangedInFiles(b);
    var generous := request.(policy := Policy(0, limit, limit));
    FilesOkAnyPolicy(a, request, generous);
    FilesOkAnyPolicy(b, request, generous);
    FilesComplete(views, a, generous);
    FilesComplete(views, b, generous);
  }

  /** What acceptance says about the raw lines. */
  lemma {:induction false} AcceptedLines(raw: seq<string>, request: Request, view: string -> View)
    requires ReadsText(view) && ParseFiles(Views(raw, view), 0, [], request).Ok?
    ensures
      forall k :: 0 <= k < |raw| ==>
        EndsWithLf(raw[k]) && ("--- " <= raw[k] ==> PlusFollows(raw, k))
  {
    FilesSound(Views(raw, view), request);
    var files := ParseFiles(Views(raw, view), 0, [], request).value;
    forall k | 0 <= k < |raw|
      ensures EndsWithLf(raw[k]) && ("--- " <= raw[k] ==> PlusFollows(raw, k))
    {
      FilesRead(Views(raw, view), files, k);
      ReadLine(raw, k, view);
    }
  }

  /** An accepted text of these files is split into exactly the lines that were printed. */
  lemma {:induction false} AcceptedIsSafe(files: seq<PatchFile>, other: char -> bool)
    requires AsciiIsPlain(other) && files != [] && AreDeletionFiles(files) && FilesLineFree(files)
    requires TextOk(PrintPatch(files), other)
    requires forall k :: 0 <= k < |PatchLines(PrintPatch(files))| ==> EndsWithLf(PatchLines(PrintPatch(files))[k])
    ensures FilesSafe(files, other) && PatchLines(PrintPatch(files)) == RenderFiles(files)
  {
    LfLinesAreSafe(PrintPatch(files), other);
    forall k | 0 <= k < |RenderFiles(files)| ensures Only(RenderFiles(files)[k], SafeOrLf(other)) {
      LinesOnly(RenderFiles(files), SafeOrLf(other), k);
    }
    FilesAreSafe(files, other);
    FilesClean(files, other);
    CleanLinesSplit(RenderFiles(files), other);
  }

  lemma {:induction false} NoDashes(files: seq<PatchFile>, raw: seq<string>)
    requires AreDeletionFiles(files) && raw == RenderFiles(files)
    requires forall k :: 0 <= k < |raw| ==> "--- " <= raw[k] ==> PlusFollows(raw, k)
    ensures FilesSpellable(files)
  {
    if !FilesSpellable(files) {
      var k := DashInFiles(files);
      assert false;
    }
  }

  /** A printed patch of deletions is accepted only if it can be told apart from headers and
      line breaks, and then it is within limits too. */
  lemma {:induction false} AcceptedIsPrinted(files: seq<PatchFile>, request: Request)
    requires AsciiIsPlain(request.otherControl) && files != [] && FilesOk(files, request)
    requires AreDeletionFiles(files) && FilesLineFree(files)
    requires ParseWirePatch(PrintPatch(files), request).Ok?
    ensures FilesSpellable(files) && FilesSafe(files, request.otherControl) && WithinLimits(files, request.policy)
  {
    var raw := PatchLines(PrintPatch(files));
    ViewerReadsText(request.otherControl);
    AcceptedLines(raw, request, Viewer(request.otherControl));
    AcceptedIsSafe(files, request.otherControl);
    NoDashes(files, raw);
    PathsAreValid(files, request);
    ReadAsPrinted(files, request);
  }

  lemma {:induction false} PathsAreValid(files: seq<PatchFile>, request: Request)
    requires FilesOk(files, request) && IsCanonicalPaths(request.allowedPaths, 1, 32, request.otherControl)
    ensures forall i :: 0 <= i < |files| ==> IsRepositoryPath(files[i].path, request.otherControl)
  {
    if files != [] {
      PathsAreValid(Front(files), request);
      assert Last(files).path in request.allowedPaths;
    }
  }

  lemma {:induction false} ReadAsPrinted(files: seq<PatchFile>, request: Request)
    requires FilesOk(files, request) && FilesSpellable(files)
    requires forall i :: 0 <= i < |files| ==> IsRepositoryPath(files[i].path, request.otherControl)
    requires ParseFiles(Views(RenderFiles(files), Viewer(request.otherControl)), 0, [], request).Ok?
    ensures WithinLimits(files, request.policy)
  {
    var other := request.otherControl;
    var views := Views(RenderFiles(files), Viewer(other));
    ViewerIsFaithful(other);
    RenderedFilesAt(files, Viewer(other), other);
    LexedViews(RenderFiles(files), other);
    FilesSound(views, request);
    OneReading(views, files, ParseFiles(views, 0, [], request).value, request);
  }
}

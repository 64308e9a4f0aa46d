/** The private-key plan: the deletion patch as it is written out, exactly when the strict parser
    accepts it, and what an accepted one does to the files. */
module DeletionPlan {
  import opened LineSplitting
  import opened HunkHeaders
  import opened RepositoryPaths
  import opened PrivateKeyRanges
  import opened WirePatch
  import opened WirePatchText
  import opened DeletionPatch
  import opened DeletionAcceptance

  // ----- what holds of every deleted line

  predicate AllLines(hunks: seq<PatchHunk>, P: PatchLine -> bool) {
    hunks == [] || (AllLines(Front(hunks), P) && AllOf(Last(hunks).lines, P))
  }

  predicate AllOf(lines: seq<PatchLine>, P: PatchLine -> bool) { forall k :: 0 <= k < |lines| ==> P(lines[k]) }

  /** The content of line `n`, counted from 1. */
  function ContentAt(lines: seq<string>, n: nat): string {
    if 1 <= n <= |lines| then Content(lines[n - 1]) else ""
  }

  lemma {:induction false} DeletedAll(lines: seq<string>, P: PatchLine -> bool)
    requires P(PatchLine(NoNewline, ""))
    ensures AllOf(DeletedLines(lines), P) <==> forall k :: 0 <= k < |lines| ==> P(PatchLine(Deletion, Content(lines[k])))
  {
    if lines != [] {
      var front, last := DeletedLines(Front(lines)), DeletedLine(Last(lines));
      DeletedAll(Front(lines), P);
      assert AllOf(front + last, P) <==> AllOf(front, P) && AllOf(last, P) by {
        if AllOf(front + last, P) {
          assert forall k :: 0 <= k < |front| ==> (front + last)[k] == front[k];
          assert forall k :: 0 <= k < |last| ==> (front + last)[|front| + k] == last[k];
        }
      }
      assert AllOf(last, P) <==> P(last[0]);
    }
  }

  lemma {:induction false} HunksAll(lines: seq<string>, ranges: seq<Range>, P: PatchLine -> bool)
    requires RangesFit(lines, ranges) && P(PatchLine(NoNewline, ""))
    ensures AllLines(DeletionHunks(lines, ranges), P) <==>
      forall n: nat :: InRanges(ranges, n) ==> P(PatchLine(Deletion, ContentAt(lines, n)))
  {
    if ranges != [] {
      LastDeletionHunk(lines, ranges);
      HunksAll(lines, Front(ranges), P);
      RangeAll(lines, Last(ranges), P);
      RangesSplit(lines, ranges, P);
    }
  }

  lemma {:induction false} RangesSplit(lines: seq<string>, ranges: seq<Range>, P: PatchLine -> bool)
    requires ranges != []
    ensures (forall n: nat :: InRanges(ranges, n) ==> P(PatchLine(Deletion, ContentAt(lines, n)))) <==>
      && (forall n: nat :: InRanges(Front(ranges), n) ==> P(PatchLine(Deletion, ContentAt(lines, n))))
      && (forall n: nat :: InRange(Last(ranges), n) ==> P(PatchLine(Deletion, ContentAt(lines, n))))
  {
    forall n: nat ensures InRanges(ranges, n) <==> InRanges(Front(ranges), n) || InRange(Last(ranges), n) {
      InRangesLast(ranges, n);
    }
  }

  lemma {:induction false} RangeAll(lines: seq<string>, r: Range, P: PatchLine -> bool)
    requires 1 <= r.start <= r.end <= |lines| && P(PatchLine(NoNewline, ""))
    ensures AllOf(DeletedLines(lines[r.start - 1..r.end]), P) <==>
      forall n: nat :: InRange(r, n) ==> P(PatchLine(Deletion, ContentAt(lines, n)))
  {
    var part := lines[r.start - 1..r.end];
    DeletedAll(part, P);
    if forall k :: 0 <= k < |part| ==> P(PatchLine(Deletion, Content(part[k]))) {
      forall n: nat | InRange(r, n) ensures P(PatchLine(Deletion, ContentAt(lines, n))) {
        assert part[n - r.start] == lines[n - 1];
      }
    }
    if forall n: nat :: InRange(r, n) ==> P(PatchLine(Deletion, ContentAt(lines, n))) {
      forall k | 0 <= k < |part| ensures P(PatchLine(Deletion, Content(part[k]))) {
        assert InRange(r, r.start + k) && ContentAt(lines, r.start + k) == Content(part[k]);
      }
    }
  }

  function Spellable(): PatchLine -> bool { (line: PatchLine) => IsBodyLine(line) }
  function Safe(other: char -> bool): PatchLine -> bool { (line: PatchLine) => SafeText(line.content, other) }
  function OneLine(): PatchLine -> bool { (line: PatchLine) => '\n' !in line.content }
  function IsDeleted(): PatchLine -> bool { (line: PatchLine) => line.kind == Deletion || line == PatchLine(NoNewline, "") }

  lemma {:induction false} SpellableIsAll(hunks: seq<PatchHunk>)
    ensures LinesSpellable(hunks) <==> AllLines(hunks, Spellable())
  {
    if hunks != [] {
      SpellableIsAll(Front(hunks));
    }
  }

  lemma {:induction false} SafeIsAll(hunks: seq<PatchHunk>, other: char -> bool)
    ensures HunksSafe(hunks, other) <==> AllLines(hunks, Safe(other))
  {
    if hunks != [] {
      SafeIsAll(Front(hunks), other);
    }
  }

  lemma {:induction false} LineFreeIsAll(hunks: seq<PatchHunk>)
    ensures HunksLineFree(hunks) <==> AllLines(hunks, OneLine())
  {
    if hunks != [] {
      LineFreeIsAll(Front(hunks));
    }
  }

  lemma {:induction false} DeletedIsAll(hunks: seq<PatchHunk>)
    ensures AreDeletionHunks(hunks) <==> AllLines(hunks, IsDeleted())
  {
    if hunks != [] {
      DeletedIsAll(Front(hunks));
    }
  }

  // ----- the condition on the files

  /** No deletion of the file looks like a file header. */
  ghost predicate NoDashedLine(file: ProtectedFile) {
    forall n: nat :: InRanges(file.ranges, n) ==> !("-- " <= ContentAt(LfLines(file.text), n))
  }

  /** The path and the deletions have no character the parser rejects or breaks lines at. */
  ghost predicate SafeDeletions(file: ProtectedFile, other: char -> bool) {
    && SafeText(file.path, other)
    && forall n: nat :: InRanges(file.ranges, n) ==> SafeText(ContentAt(LfLines(file.text), n), other)
  }

  lemma {:induction false} SpellableMeans(lines: seq<string>, ranges: seq<Range>)
    requires RangesFit(lines, ranges)
    ensures LinesSpellable(DeletionHunks(lines, ranges)) <==> forall n: nat :: InRanges(ranges, n) ==> !("-- " <= ContentAt(lines, n))
  {
    var hunks := DeletionHunks(lines, ranges);
    SpellableIsAll(hunks);
    HunksAll(lines, ranges, Spellable());
    assert forall n: nat :: Spellable()(PatchLine(Deletion, ContentAt(lines, n))) <==> !("-- " <= ContentAt(lines, n));
  }

  lemma {:induction false} SafeMeans(lines: seq<string>, ranges: seq<Range>, other: char -> bool)
    requires RangesFit(lines, ranges)
    ensures HunksSafe(DeletionHunks(lines, ranges), other) <==> forall n: nat :: InRanges(ranges, n) ==> SafeText(ContentAt(lines, n), other)
  {
    SafeIsAll(DeletionHunks(lines, ranges), other);
    HunksAll(lines, ranges, Safe(other));
    assert forall n: nat :: Safe(other)(PatchLine(Deletion, ContentAt(lines, n))) <==> SafeText(ContentAt(lines, n), other);
  }

  lemma {:induction false} DeletionsAreDeletions(lines: seq<string>, ranges: seq<Range>)
    requires RangesFit(lines, ranges) && WellSplit(lines, IsNewline)
    ensures HunksLineFree(DeletionHunks(lines, ranges)) && AreDeletionHunks(DeletionHunks(lines, ranges))
  {
    var hunks := DeletionHunks(lines, ranges);
    LineFreeIsAll(hunks);
    DeletedIsAll(hunks);
    forall n: nat ensures '\n' !in ContentAt(lines, n) {
      assert 1 <= n <= |lines| ==> IsLine(lines[n - 1], IsNewline);
    }
    HunksAll(lines, ranges, OneLine());
    HunksAll(lines, ranges, IsDeleted());
  }

  lemma {:induction false} DeletionsMean(file: ProtectedFile, other: char -> bool)
    requires FileFit(file)
    ensures
      var hunks := DeletionFile(file).hunks;
      && (LinesSpellable(hunks) <==> NoDashedLine(file))
      && (HunksSafe(hunks, other) <==>
           forall n: nat :: InRanges(file.ranges, n) ==> SafeText(ContentAt(LfLines(file.text), n), other))
      && HunksLineFree(hunks) && AreDeletionHunks(hunks)
  {
    LinesSound(file.text, IsNewline);
    SpellableMeans(LfLines(file.text), file.ranges);
    SafeMeans(LfLines(file.text), file.ranges, other);
    DeletionsAreDeletions(LfLines(file.text), file.ranges);
  }

  /** Allowed paths in ascending order, each with ranges that fit its text. */
  predicate IsPlan(files: seq<ProtectedFile>, allowed: seq<string>) {
    files == [] ||
    (&& IsPlan(Front(files), allowed) && FileFit(Last(files)) && Last(files).path in allowed
     && (|files| > 1 ==> PathLess(Last(Front(files)).path, Last(files).path)))
  }

  function ProtectedLines(files: seq<ProtectedFile>): nat
    requires FilesFit(files)
  {
    if files == [] then 0 else ProtectedLines(Front(files)) + RangesSize(Last(files).ranges)
  }

  lemma {:induction false} PlanFits(files: seq<ProtectedFile>, allowed: seq<string>)
    requires IsPlan(files, allowed)
    ensures FilesFit(files)
  {
    if files != [] {
      PlanFits(Front(files), allowed);
    }
  }

  lemma {:induction false} DeletionFileAt(files: seq<ProtectedFile>, i: nat)
    requires FilesFit(files) && i < |files|
    ensures DeletionFiles(files)[i] == DeletionFile(files[i])
  {
    if i < |files| - 1 {
      DeletionFileAt(Front(files), i);
    }
  }

  /** The generated patch is well formed. */
  lemma {:induction false} PlanIsWellFormed(files: seq<ProtectedFile>, request: Request)
    requires IsPlan(files, request.allowedPaths)
    ensures FilesFit(files) && FilesOk(DeletionFiles(files), request)
    ensures ChangedInFiles(DeletionFiles(files)) == ProtectedLines(files)
  {
    PlanFits(files, request.allowedPaths);
    if files != [] {
      var front, file := DeletionFiles(Front(files)), Last(files);
      PlanIsWellFormed(Front(files), request);
      LinesSound(file.text, IsNewline);
      DeletionHunksOk(LfLines(file.text), file.ranges);
      assert Front(front + [DeletionFile(file)]) == front && Last(front + [DeletionFile(file)]) == DeletionFile(file);
      if |files| > 1 {
        DeletionFileAt(Front(files), |files| - 2);
      }
    }
  }

  lemma {:induction false} PlanMeans(files: seq<ProtectedFile>, request: Request)
    requires IsPlan(files, request.allowedPaths) && FilesFit(files)
    requires IsCanonicalPaths(request.allowedPaths, 1, 32, request.otherControl)
    ensures
      var patch := DeletionFiles(files);
      && AreDeletionFiles(patch) && FilesLineFree(patch)
      && (FilesSpellable(patch) <==> forall i :: 0 <= i < |files| ==> NoDashedLine(files[i]))
      && (FilesSafe(patch, request.otherControl) <==> forall i :: 0 <= i < |files| ==> SafeDeletions(files[i], request.otherControl))
  {
    var patch := DeletionFiles(files);
    PlanIsWellFormed(files, request);
    PathsAreValid(patch, request);
    forall i | 0 <= i < |files| ensures FileMeans(patch[i], files[i], request.otherControl) {
      DeletionFileAt(files, i);
      OneFileMeans(files[i], request.otherControl);
    }
    AllFilesMean(patch, files, request.otherControl);
  }

  lemma {:induction false} AllFilesMean(patch: seq<PatchFile>, files: seq<ProtectedFile>, other: char -> bool)
    requires |patch| == |files| && forall i :: 0 <= i < |files| ==> FileMeans(patch[i], files[i], other)
    ensures AreDeletionFiles(patch) && FilesLineFree(patch)
    ensures FilesSpellable(patch) <==> forall i :: 0 <= i < |files| ==> NoDashedLine(files[i])
    ensures FilesSafe(patch, other) <==> forall i :: 0 <= i < |files| ==> SafeDeletions(files[i], other)
  {
    assert forall i :: 0 <= i < |files| ==> FileMeans(patch[i], files[i], other);
  }

  ghost predicate FileMeans(deletion: PatchFile, file: ProtectedFile, other: char -> bool) {
    && AreDeletionHunks(deletion.hunks) && '\n' !in deletion.path && HunksLineFree(deletion.hunks)
    && (LinesSpellable(deletion.hunks) <==> NoDashedLine(file))
    && (SafeText(deletion.path, other) && HunksSafe(deletion.hunks, other) <==> SafeDeletions(file, other))
  }

  lemma {:induction false} OneFileMeans(file: ProtectedFile, other: char -> bool)
    requires FileFit(file) && IsRepositoryPath(file.path, other)
    ensures FileMeans(DeletionFile(file), file, other)
  {
    DeletionsMean(file, other);
    assert IsCc('\n');
  }

  /** The strict parser accepts the generated patch exactly when the limits hold, no protected
      line starts with "-- ", and no path or protected line holds a rejected or line-breaking
      character; and then it reads the patch that was meant. */
  lemma {:induction false} AcceptedExactly(files: seq<ProtectedFile>, request: Request)
    requires files != [] && IsPlan(files, request.allowedPaths) && FilesFit(files)
    requires IsCanonicalPaths(request.allowedPaths, 1, 32, request.otherControl) && AsciiIsPlain(request.otherControl)
    ensures
      var patch := DeletionFiles(files);
      var source := PrintPatch(patch);
      && (ParseWirePatch(source, request).Ok? <==>
           && Utf8Length(source) <= request.policy.maxPatchBytes
           && |files| <= request.policy.maxPatchPaths && ProtectedLines(files) <= request.policy.maxChangedLines
           && (forall i :: 0 <= i < |files| ==> NoDashedLine(files[i]))
           && (forall i :: 0 <= i < |files| ==> SafeDeletions(files[i], request.otherControl)))
      && (ParseWirePatch(source, request).Ok? ==>
           ParseWirePatch(source, request) == Ok(ParsedPatch(source, patch, ProtectedLines(files))))
  {
    var patch := DeletionFiles(files);
    PlanIsWellFormed(files, request);
    PlanMeans(files, request);
    PathsAreValid(patch, request);
    if ParseWirePatch(PrintPatch(patch), request).Ok? {
      AcceptedIsPrinted(patch, request);
    }
    if FilesSpellable(patch) && FilesSafe(patch, request.otherControl) && WithinLimits(patch, request.policy)
       && Utf8Length(PrintPatch(patch)) <= request.policy.maxPatchBytes {
      RoundTrip(patch, request);
    }
  }

  // ----- writing it out

  /** The text of one deletion, as it is put out. */
  lemma {:induction false} DeletionText(line: string)
    requires line != []
    ensures RenderLines(DeletedLine(line)) ==
      if Last(line) == '\n' then ["-" + line] else ["-" + line + "\n", NO_NEWLINE_MARKER + "\n"]
  {
    if Last(line) == '\n' {
      assert line == Front(line) + "\n";
      assert "-" + Front(line) + "\n" == "-" + line;
    }
  }

  lemma {:induction false} RenderLinesConcat(a: seq<PatchLine>, b: seq<PatchLine>)
    ensures RenderLines(a + b) == RenderLines(a) + RenderLines(b)
  {
  }

  method WriteDeletions(lines: seq<string>) returns (output: seq<string>)
    requires forall k :: 0 <= k < |lines| ==> lines[k] != []
    ensures output == RenderLines(DeletedLines(lines))
  {
    output := [];
    for k := 0 to |lines|
      invariant output == RenderLines(DeletedLines(lines[..k]))
    {
      var line := lines[k];
      assert Front(lines[..k + 1]) == lines[..k];
      RenderLinesConcat(DeletedLines(lines[..k]), DeletedLine(line));
      DeletionText(line);
      if Last(line) == '\n' {
        output := output + ["-" + line];
      } else {
        output := output + ["-" + line + "\n", NO_NEWLINE_MARKER + "\n"];
      }
    }
    assert lines[..|lines|] == lines;
  }

  lemma {:induction false} OneMoreRange(lines: seq<string>, ranges: seq<Range>)
    requires RangesFit(lines, ranges) && ranges != []
    ensures RangesFit(lines, Front(ranges)) && RangeFits(lines, Last(ranges)) && RangesSize(Front(ranges)) < Last(ranges).start
    ensures RangesSize(ranges) == RangesSize(Front(ranges)) + RangeSize(Last(ranges))
    ensures RenderHunks(DeletionHunks(lines, ranges))
      == RenderHunks(DeletionHunks(lines, Front(ranges))) + RenderHunk(DeletionHunk(lines, Last(ranges), RangesSize(Front(ranges))))
  {
    LastDeletionHunk(lines, ranges);
  }

  /** One range, `deletedBefore` lines before it being deleted already. */
  method WriteHunk(lines: seq<string>, r: Range, deletedBefore: nat) returns (output: seq<string>, deleted: nat)
    requires WellSplit(lines, IsNewline) && RangeFits(lines, r) && deletedBefore < r.start
    ensures output == RenderHunk(DeletionHunk(lines, r, deletedBefore))
    ensures deleted == deletedBefore + RangeSize(r)
  {
    var count := r.end - r.start + 1;
    var newStart := r.start - deletedBefore - 1;
    var deletions := WriteDeletions(lines[r.start - 1..r.end]);
    output := [HeaderLine(Coordinates(r.start, count, newStart, 0))] + deletions;
    deleted := deletedBefore + count;
  }

  lemma {:induction false} FirstRanges(lines: seq<string>, ranges: seq<Range>, i: nat)
    requires RangesFit(lines, ranges) && i < |ranges|
    ensures RangesFit(lines, ranges[..i + 1]) && Front(ranges[..i + 1]) == ranges[..i] && Last(ranges[..i + 1]) == ranges[i]
    decreases |ranges|
  {
    if i < |ranges| - 1 {
      FrontFits(lines, ranges);
      FirstRanges(lines, Front(ranges), i);
      assert Front(ranges)[..i + 1] == ranges[..i + 1] && Front(ranges)[..i] == ranges[..i];
    } else {
      assert ranges[..i + 1] == ranges;
    }
  }

  method WriteHunks(lines: seq<string>, ranges: seq<Range>) returns (output: seq<string>)
    requires WellSplit(lines, IsNewline) && RangesFit(lines, ranges)
    ensures output == RenderHunks(DeletionHunks(lines, ranges))
  {
    output := [];
    var deletedBefore: nat := 0;
    for i := 0 to |ranges|
      invariant RangesFit(lines, ranges[..i]) && deletedBefore == RangesSize(ranges[..i])
      invariant output == RenderHunks(DeletionHunks(lines, ranges[..i]))
    {
      FirstRanges(lines, ranges, i);
      OneMoreRange(lines, ranges[..i + 1]);
      var hunk;
      hunk, deletedBefore := WriteHunk(lines, ranges[i], deletedBefore);
      output := output + hunk;
    }
    assert ranges[..|ranges|] == ranges;
  }

  /** The lines of the patch for some files. */
  function PlanLines(files: seq<ProtectedFile>): seq<string>
    requires FilesFit(files)
  {
    RenderFiles(DeletionFiles(files))
  }

  lemma {:induction false} OneMoreFile(files: seq<ProtectedFile>, file: ProtectedFile)
    requires FilesFit(files) && FileFit(file)
    ensures FilesFit(files + [file]) && PlanLines(files + [file]) == PlanLines(files) + RenderFile(DeletionFile(file))
  {
    var front := DeletionFiles(files);
    assert Front(files + [file]) == files && Last(files + [file]) == file;
    assert Front(front + [DeletionFile(file)]) == front && Last(front + [DeletionFile(file)]) == DeletionFile(file);
  }

  lemma {:induction false} HeadLines(path: string)
    ensures [OldHeader(path, false), NewHeader(path)] == ["--- a/" + path + "\n", "+++ b/" + path + "\n"]
  {
    assert OldHeader(path, false) == "--- a/" + path + "\n";
    assert NewHeader(path) == "+++ b/" + path + "\n";
  }

  method WriteFile(file: ProtectedFile) returns (output: seq<string>)
    requires FileFit(file)
    ensures output == RenderFile(DeletionFile(file))
  {
    LinesSound(file.text, IsNewline);
    var hunks := WriteHunks(LfLines(file.text), file.ranges);
    HeadLines(file.path);
    output := ["--- a/" + file.path + "\n", "+++ b/" + file.path + "\n"] + hunks;
  }

  method WriteNext(file: ProtectedFile, output: seq<string>, ghost done: seq<ProtectedFile>) returns (output': seq<string>)
    requires FilesFit(done) && FileFit(file) && output == PlanLines(done)
    ensures FilesFit(done + [file]) && output' == PlanLines(done + [file])
  {
    var more := WriteFile(file);
    OneMoreFile(done, file);
    output' := output + more;
  }

  /** `_deletion_patch_source`, its files already in path order. */
  method DeletionPatchSource(files: seq<ProtectedFile>) returns (source: Option<string>)
    requires FilesFit(files)
    ensures source == if files == [] then None else Some(PrintPatch(DeletionFiles(files)))
  {
    if files == [] {
      return None;
    }
    var output: seq<string> := [];
    ghost var done: seq<ProtectedFile> := [];
    for i := 0 to |files|
      invariant done == files[..i] && FilesFit(done) && output == PlanLines(done)
    {
      output := WriteNext(files[i], output, done);
      NextPrefix(files, i);
      done := done + [files[i]];
    }
    assert files[..|files|] == files;
    return Some(Flatten(output));
  }

  lemma {:induction false} NextPrefix<T>(items: seq<T>, i: nat)
    requires i < |items|
    ensures items[..i + 1] == items[..i] + [items[i]]
  {
  }
}

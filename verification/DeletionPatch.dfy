/** The deterministic deletion patch: what it says, when the wire parser accepts it, and that
    applying it gives exactly the sanitised prompt file. */
module DeletionPatch {
  import opened LineSplitting
  import opened HunkHeaders
  import opened MarkerPairing
  import opened PrivateKeyRanges
  import opened WirePatch
  import opened PatchApplication

  /** One allowed file with protected lines. */
  datatype ProtectedFile = ProtectedFile(path: string, text: string, ranges: seq<Range>)

  /** Ranges name lines of the text, separated, counted from 1. */
  predicate RangesFit(lines: seq<string>, ranges: seq<Range>) {
    && Separated(ranges)
    && (ranges != [] ==> 1 <= ranges[0].start && Last(ranges).end <= |lines|)
  }

  predicate RangeFits(lines: seq<string>, r: Range) { 1 <= r.start <= r.end <= |lines| }

  /** The deletion of one line: a line without LF brings its marker. */
  function DeletedLine(line: string): seq<PatchLine> {
    if line != [] && Last(line) == '\n' then [PatchLine(Deletion, Front(line))]
    else [PatchLine(Deletion, line), PatchLine(NoNewline, "")]
  }

  function DeletedLines(lines: seq<string>): seq<PatchLine> {
    if lines == [] then [] else DeletedLines(Front(lines)) + DeletedLine(Last(lines))
  }

  function RangeSize(r: Range): nat
    requires r.start <= r.end
  {
    r.end - r.start + 1
  }

  function RangesSize(ranges: seq<Range>): nat
    requires Separated(ranges)
  {
    if ranges == [] then 0 else RangesSize(Front(ranges)) + RangeSize(Last(ranges))
  }

  /** The last range fits behind the lines the others delete. */
  lemma {:induction false} FrontFits(lines: seq<string>, ranges: seq<Range>)
    requires RangesFit(lines, ranges) && ranges != []
    ensures RangesFit(lines, Front(ranges)) && RangeFits(lines, Last(ranges))
    ensures RangesSize(Front(ranges)) < Last(ranges).start && RangesSize(ranges) <= Last(ranges).end
  {
    if |ranges| > 1 {
      assert Front(ranges)[0] == ranges[0];
      FrontFits(lines, Front(ranges));
    }
  }

  /** The deletion of one range, `deleted` lines before it being deleted already. */
  function DeletionHunk(lines: seq<string>, r: Range, deleted: nat): PatchHunk
    requires RangeFits(lines, r) && deleted < r.start
  {
    PatchHunk(Coordinates(r.start, RangeSize(r), r.start - deleted - 1, 0), DeletedLines(lines[r.start - 1..r.end]))
  }

  function DeletionHunks(lines: seq<string>, ranges: seq<Range>): seq<PatchHunk>
    requires RangesFit(lines, ranges)
  {
    if ranges == [] then []
    else
      FrontFits(lines, ranges);
      DeletionHunks(lines, Front(ranges)) + [DeletionHunk(lines, Last(ranges), RangesSize(Front(ranges)))]
  }

  lemma {:induction false} LastDeletionHunk(lines: seq<string>, ranges: seq<Range>)
    requires RangesFit(lines, ranges) && ranges != []
    ensures RangesFit(lines, Front(ranges)) && RangeFits(lines, Last(ranges)) && RangesSize(Front(ranges)) < Last(ranges).start
    ensures RangesSize(ranges) == RangesSize(Front(ranges)) + RangeSize(Last(ranges))
    ensures
      var hunks := DeletionHunks(lines, ranges);
      && hunks != []
      && Front(hunks) == DeletionHunks(lines, Front(ranges))
      && Last(hunks) == DeletionHunk(lines, Last(ranges), RangesSize(Front(ranges)))
  {
    FrontFits(lines, ranges);
  }

  predicate FileFit(file: ProtectedFile) { RangesFit(LfLines(file.text), file.ranges) && file.ranges != [] }

  function DeletionFile(file: ProtectedFile): PatchFile
    requires FileFit(file)
  {
    PatchFile(file.path, false, DeletionHunks(LfLines(file.text), file.ranges))
  }

  predicate FilesFit(files: seq<ProtectedFile>) { forall i :: 0 <= i < |files| ==> FileFit(files[i]) }

  function DeletionFiles(files: seq<ProtectedFile>): (r: seq<PatchFile>)
    requires FilesFit(files)
    ensures |r| == |files|
  {
    if files == [] then [] else DeletionFiles(Front(files)) + [DeletionFile(Last(files))]
  }

  // ----- the patch is well formed

  lemma {:induction false} OneMoreLine(front: seq<PatchLine>, line: PatchLine)
    ensures OldSide(front + [line]) == OldSide(front) + (if line.kind in [Context, Deletion] then 1 else 0)
    ensures NewSide(front + [line]) == NewSide(front) + (if line.kind in [Context, Addition] then 1 else 0)
    ensures Changed(front + [line]) == Changed(front) + (if line.kind in [Addition, Deletion] then 1 else 0)
    ensures BodyOk(front + [line]) <==> BodyOk(front) && (line.kind == NoNewline ==> MarkerAllowed(front))
  {
    assert Front(front + [line]) == front && Last(front + [line]) == line;
  }

  lemma {:induction false} OneMoreDeleted(front: seq<PatchLine>, line: string)
    requires BodyOk(front)
    ensures
      var more := front + DeletedLine(line);
      OldSide(more) == OldSide(front) + 1 && NewSide(more) == NewSide(front) && Changed(more) == Changed(front) + 1 && BodyOk(more)
  {
    var deleted := DeletedLine(line)[0];
    OneMoreLine(front, deleted);
    if |DeletedLine(line)| == 2 {
      OneMoreLine(front + [deleted], DeletedLine(line)[1]);
      assert front + DeletedLine(line) == front + [deleted] + [DeletedLine(line)[1]];
    }
  }

  lemma {:induction false} DeletedLinesCount(lines: seq<string>)
    ensures OldSide(DeletedLines(lines)) == |lines| && NewSide(DeletedLines(lines)) == 0 && Changed(DeletedLines(lines)) == |lines|
    ensures BodyOk(DeletedLines(lines))
  {
    if lines != [] {
      DeletedLinesCount(Front(lines));
      OneMoreDeleted(DeletedLines(Front(lines)), Last(lines));
    }
  }

  lemma {:induction false} DeletionHunkOk(lines: seq<string>, r: Range, deleted: nat)
    requires RangeFits(lines, r) && deleted < r.start
    ensures BodyOk(DeletionHunk(lines, r, deleted).lines) && CountsOk(DeletionHunk(lines, r, deleted), false)
    ensures Changed(DeletionHunk(lines, r, deleted).lines) == RangeSize(r)
  {
    DeletedLinesCount(lines[r.start - 1..r.end]);
  }

  lemma {:induction false} DeletionsAdvance(lines: seq<string>, ranges: seq<Range>)
    requires RangesFit(lines, ranges) && |ranges| > 1
    ensures Advances(Last(DeletionHunks(lines, Front(ranges))), Last(DeletionHunks(lines, ranges)))
  {
    LastDeletionHunk(lines, ranges);
    LastDeletionHunk(lines, Front(ranges));
  }

  lemma {:induction false} DeletionHunksOk(lines: seq<string>, ranges: seq<Range>)
    requires RangesFit(lines, ranges)
    ensures HunksOk(DeletionHunks(lines, ranges), false)
    ensures ChangedInHunks(DeletionHunks(lines, ranges)) == RangesSize(ranges)
    ensures |DeletionHunks(lines, ranges)| == |ranges|
  {
    if ranges != [] {
      LastDeletionHunk(lines, ranges);
      DeletionHunksOk(lines, Front(ranges));
      DeletionHunkOk(lines, Last(ranges), RangesSize(Front(ranges)));
      if |ranges| > 1 {
        DeletionsAdvance(lines, ranges);
      }
    }
  }

  // ----- applying it

  lemma {:induction false} ApplyDeletedLines(lines: seq<string>, from: nat, part: seq<string>, output: seq<string>)
    requires from + |part| <= |lines|
    requires forall i :: 0 <= i < |part| ==> part[i] == lines[from + i] && part[i] != []
    ensures
      var body := DeletedLines(part);
      ApplyLines(lines, body, |body|, Progress(from, output)) == Some(Progress(from + |part|, output))
    decreases |part|
  {
    if part != [] {
      ApplyDeletedLines(lines, from, Front(part), output);
      OneMoreDeletion(lines, DeletedLines(Front(part)), Last(part), Progress(from, output), Progress(from + |part| - 1, output));
    }
  }

  lemma {:induction false} OneMoreDeletion(lines: seq<string>, before: seq<PatchLine>, line: string, start: Progress, p: Progress)
    requires p.consumed < |lines| && lines[p.consumed] == line && line != []
    requires ApplyLines(lines, before, |before|, start) == Some(p)
    ensures
      var body := before + DeletedLine(line);
      ApplyLines(lines, body, |body|, start) == Some(p.(consumed := p.consumed + 1))
  {
    ApplyLonger(lines, before, DeletedLine(line), |before|, start);
    ApplyDeletedLine(lines, before, line, start, p);
  }

  /** The deletion of the next line consumes it, with or without its LF. */
  lemma {:induction false} ApplyDeletedLine(lines: seq<string>, before: seq<PatchLine>, line: string, start: Progress, p: Progress)
    requires p.consumed < |lines| && lines[p.consumed] == line && line != []
    requires ApplyLines(lines, before + DeletedLine(line), |before|, start) == Some(p)
    ensures
      var body := before + DeletedLine(line);
      ApplyLines(lines, body, |body|, start) == Some(p.(consumed := p.consumed + 1))
  {
    var body, n := before + DeletedLine(line), |before|;
    assert body[n].kind == Deletion;
    if Last(line) == '\n' {
      assert FileLine(body, n) == line;
    } else {
      assert body[n + 1].kind == NoNewline;
      assert FileLine(body, n) == line;
      assert ApplyLines(lines, body, n + 1, start) == Some(p.(consumed := p.consumed + 1));
    }
  }

  // ----- what is kept

  lemma {:induction false} KeptAgree(items: seq<string>, a: set<nat>, b: set<nat>)
    requires forall n: nat :: 1 <= n <= |items| ==> (n in a <==> n in b)
    ensures Kept(items, a) == Kept(items, b)
  {
    if items != [] {
      KeptAgree(Front(items), a, b);
    }
  }

  /** A stretch that is kept whole is copied. */
  lemma {:induction false} KeptCopies(items: seq<string>, removed: set<nat>, i: nat, j: nat)
    requires i <= j <= |items| && forall n: nat :: i < n <= j ==> n !in removed
    ensures Kept(items[..j], removed) == Kept(items[..i], removed) + items[i..j]
    decreases j
  {
    if i < j {
      assert Front(items[..j]) == items[..j - 1];
      KeptCopies(items, removed, i, j - 1);
      assert items[i..j] == items[i..j - 1] + [items[j - 1]];
    }
  }

  /** A stretch that is removed whole leaves nothing. */
  lemma {:induction false} KeptSkips(items: seq<string>, removed: set<nat>, i: nat, j: nat)
    requires i <= j <= |items| && forall n: nat :: i < n <= j ==> n in removed
    ensures Kept(items[..j], removed) == Kept(items[..i], removed)
    decreases j
  {
    if i < j {
      assert Front(items[..j]) == items[..j - 1];
      KeptSkips(items, removed, i, j - 1);
    }
  }

  function EndOf(ranges: seq<Range>): nat { if ranges == [] then 0 else Last(ranges).end }

  /** The lines kept up to the last range. */
  function KeptSoFar(lines: seq<string>, ranges: seq<Range>): seq<string>
    requires EndOf(ranges) <= |lines|
  {
    Kept(lines[..EndOf(ranges)], LineSet(ranges))
  }

  lemma {:induction false} LineSetStep(ranges: seq<Range>)
    requires Separated(ranges) && ranges != []
    ensures forall n: nat :: n in LineSet(ranges) <==> n in LineSet(Front(ranges)) || InRange(Last(ranges), n)
    ensures forall n: nat :: n in LineSet(Front(ranges)) ==> n <= EndOf(Front(ranges))
    ensures EndOf(Front(ranges)) + 1 < Last(ranges).start || Front(ranges) == []
  {
    var front := Front(ranges);
    forall n: nat ensures n in LineSet(ranges) <==> n in LineSet(front) || InRange(Last(ranges), n) {
      InRangesLast(ranges, n);
    }
    if front != [] {
      LastLine(front);
    }
  }

  /** Removing `all` up to `end` is removing `some` up to `before` and keeping what lies between. */
  lemma {:induction false} KeptBetween(lines: seq<string>, all: set<nat>, some: set<nat>, before: nat, start: nat, end: nat)
    requires before < start <= end <= |lines|
    requires forall n: nat :: n in all <==> n in some || start <= n <= end
    requires forall n: nat :: n in some ==> n <= before
    ensures Kept(lines[..end], all) == Kept(lines[..before], some) + lines[before..start - 1]
  {
    KeptSkips(lines, all, start - 1, end);
    KeptCopies(lines, all, before, start - 1);
    KeptAgree(lines[..before], all, some);
  }

  /** One more range: what lies between is kept, the range is not. */
  lemma {:induction false} KeptStep(lines: seq<string>, ranges: seq<Range>)
    requires RangesFit(lines, ranges) && ranges != []
    ensures
      var r, before := Last(ranges), EndOf(Front(ranges));
      before < r.start && KeptSoFar(lines, ranges) == KeptSoFar(lines, Front(ranges)) + lines[before..r.start - 1]
  {
    var r := Last(ranges);
    LineSetStep(ranges);
    KeptBetween(lines, LineSet(ranges), LineSet(Front(ranges)), EndOf(Front(ranges)), r.start, r.end);
  }

  lemma {:induction false} KeptSoFarSize(lines: seq<string>, ranges: seq<Range>)
    requires RangesFit(lines, ranges)
    ensures |KeptSoFar(lines, ranges)| == EndOf(ranges) - RangesSize(ranges)
  {
    if ranges == [] {
      assert lines[..0] == [];
    } else {
      KeptSoFarSize(lines, Front(ranges));
      KeptStep(lines, ranges);
    }
  }

  lemma {:induction false} ApplyDeletionHunk(lines: seq<string>, r: Range, deleted: nat, p: Progress, output: seq<string>)
    requires WellSplit(lines, IsNewline) && p.consumed < r.start && RangeFits(lines, r)
    requires deleted <= p.consumed && |p.output| == p.consumed - deleted && output == p.output + lines[p.consumed..r.start - 1]
    ensures ApplyHunk(lines, DeletionHunk(lines, r, deleted), p) == Some(Progress(r.end, output))
  {
    var hunk := DeletionHunk(lines, r, deleted);
    ApplyRange(lines, r, output);
    CopyThenApply(lines, hunk, p, r.start - 1, output);
    assert ApplyHunk(lines, hunk, p) == ApplyLines(lines, hunk.lines, |hunk.lines|, Progress(r.start - 1, output));
  }

  lemma {:induction false} ApplyRange(lines: seq<string>, r: Range, output: seq<string>)
    requires WellSplit(lines, IsNewline) && RangeFits(lines, r)
    ensures
      var body := DeletedLines(lines[r.start - 1..r.end]);
      ApplyLines(lines, body, |body|, Progress(r.start - 1, output)) == Some(Progress(r.end, output))
  {
    ApplyDeletedLines(lines, r.start - 1, lines[r.start - 1..r.end], output);
  }

  /** A hunk that starts where it says: the lines before it are copied, then its body applies. */
  lemma {:induction false} CopyThenApply(lines: seq<string>, hunk: PatchHunk, p: Progress, before: nat, output: seq<string>)
    requires p.consumed <= before <= |lines| && output == p.output + lines[p.consumed..before]
    requires before == LinesBefore(hunk.coordinates.oldStart, hunk.coordinates.oldCount)
    requires |output| == LinesBefore(hunk.coordinates.newStart, hunk.coordinates.newCount)
    ensures ApplyHunk(lines, hunk, p) == ApplyLines(lines, hunk.lines, |hunk.lines|, Progress(before, output))
  {
  }

  lemma {:induction false} ApplyLastRange(lines: seq<string>, ranges: seq<Range>)
    requires WellSplit(lines, IsNewline) && RangesFit(lines, ranges) && ranges != []
    ensures RangesFit(lines, Front(ranges)) && RangeFits(lines, Last(ranges)) && RangesSize(Front(ranges)) < Last(ranges).start
    ensures ApplyHunk(lines, DeletionHunk(lines, Last(ranges), RangesSize(Front(ranges))),
                      Progress(EndOf(Front(ranges)), KeptSoFar(lines, Front(ranges))))
      == Some(Progress(EndOf(ranges), KeptSoFar(lines, ranges)))
  {
    FrontFits(lines, ranges);
    KeptStep(lines, ranges);
    KeptSoFarSize(lines, Front(ranges));
    ApplyDeletionHunk(lines, Last(ranges), RangesSize(Front(ranges)),
                      Progress(EndOf(Front(ranges)), KeptSoFar(lines, Front(ranges))), KeptSoFar(lines, ranges));
  }

  /** Applying the deletions of the first ranges gives the lines kept so far. */
  lemma {:induction false} ApplyDeletionHunks(lines: seq<string>, ranges: seq<Range>)
    requires WellSplit(lines, IsNewline) && RangesFit(lines, ranges)
    ensures ApplyHunks(lines, DeletionHunks(lines, ranges)) == Some(Progress(EndOf(ranges), KeptSoFar(lines, ranges)))
  {
    if ranges == [] {
      assert lines[..0] == [];
    } else {
      LastDeletionHunk(lines, ranges);
      ApplyDeletionHunks(lines, Front(ranges));
      ApplyLastRange(lines, ranges);
    }
  }

  /** Applying the deletion patch of a file gives exactly its sanitised prompt text, including
      when the last line has no newline. */
  lemma {:induction false} ApplyIsSanitise(text: string, ranges: seq<Range>)
    requires RangesFit(LfLines(text), ranges)
    ensures ApplyFile(LfLines(text), DeletionHunks(LfLines(text), ranges)) == Some(LfLines(RemoveRanges(text, ranges)))
  {
    var lines, end := LfLines(text), EndOf(ranges);
    LinesSound(text, IsNewline);
    ApplyDeletionHunks(lines, ranges);
    RemovedLines(text, ranges);
    if ranges != [] {
      LastLine(ranges);
    }
    KeptCopies(lines, LineSet(ranges), end, |lines|);
    assert lines[..|lines|] == lines && lines[end..|lines|] == lines[end..];
  }
}

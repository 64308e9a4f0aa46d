/** The wire-patch parser as the source runs it: one cursor, nested loops and counters. */
module WirePatchReader {
  import opened LineSplitting
  import opened HunkHeaders
  import opened RepositoryPaths
  import opened WirePatch

  /** The inner loop: the lines of one hunk, counted as they are read. */
  method ReadBody(views: seq<View>, start: nat) returns (r: Parse<Body>, oldSeen: nat, newSeen: nat, changedSeen: nat)
    requires start <= |views|
    ensures r == ParseBody(views, start, [])
    ensures r.Ok? ==>
      oldSeen == OldSide(r.value.lines) && newSeen == NewSide(r.value.lines) && changedSeen == Changed(r.value.lines)
  {
    var cursor, lines := start, [];
    var previousWasContent, previousWasMarker := false, false;
    oldSeen, newSeen, changedSeen := 0, 0, 0;
    while cursor < |views| && !Stops(views[cursor])
      invariant start <= cursor <= |views|
      invariant ParseBody(views, start, []) == ParseBody(views, cursor, lines)
      invariant oldSeen == OldSide(lines) && newSeen == NewSide(lines) && changedSeen == Changed(lines)
      invariant previousWasContent == (lines != [])
      invariant lines != [] ==> previousWasMarker == (Last(lines).kind == NoNewline)
    {
      if views[cursor].line.None? {
        return Invalid, 0, 0, 0;
      }
      var line := views[cursor].line.value;
      TallyLine(lines, line);
      if line.kind == NoNewline {
        if !previousWasContent || previousWasMarker {
          return Invalid, 0, 0, 0;
        }
        previousWasMarker := true;
      } else {
        previousWasContent, previousWasMarker := true, false;
        if line.kind == Context {
          oldSeen, newSeen := oldSeen + 1, newSeen + 1;
        } else if line.kind == Addition {
          newSeen, changedSeen := newSeen + 1, changedSeen + 1;
        } else {
          oldSeen, changedSeen := oldSeen + 1, changedSeen + 1;
        }
      }
      lines, cursor := lines + [line], cursor + 1;
    }
    r := Ok(Body(lines, cursor));
  }

  /** What one more line adds to the counts. */
  lemma {:induction false} TallyLine(lines: seq<PatchLine>, line: PatchLine)
    ensures OldSide(lines + [line]) == OldSide(lines) + (if line.kind in [Context, Deletion] then 1 else 0)
    ensures NewSide(lines + [line]) == NewSide(lines) + (if line.kind in [Context, Addition] then 1 else 0)
    ensures Changed(lines + [line]) == Changed(lines) + (if line.kind in [Addition, Deletion] then 1 else 0)
  {
    assert Front(lines + [line]) == lines && Last(lines + [line]) == line;
  }

  /** The middle loop: the hunks of one file. */
  method ReadHunks(views: seq<View>, start: nat, isNew: bool, changed: nat, maximum: nat) returns (r: Parse<Hunks>, changedNow: nat)
    requires start <= |views|
    ensures r == ParseHunks(views, start, [], isNew, changed, maximum)
    ensures r.Ok? ==> changedNow == changed + ChangedInHunks(r.value.hunks)
  {
    var cursor, hunks := start, [];
    var previousEnds: Option<(nat, nat)> := None;
    changedNow := changed;
    while cursor < |views| && views[cursor].startsHunk
      invariant start <= cursor <= |views|
      invariant ParseHunks(views, start, [], isNew, changed, maximum) == ParseHunks(views, cursor, hunks, isNew, changed, maximum)
      invariant changedNow == changed + ChangedInHunks(hunks)
      invariant previousEnds == if hunks == [] then None else Some(Ends(Last(hunks).coordinates))
      decreases |views| - cursor
    {
      if views[cursor].header.None? {
        return Invalid, changedNow;
      }
      var c := views[cursor].header.value;
      var body, oldSeen, newSeen, changedSeen := ReadBody(views, cursor + 1);
      if !body.Ok? {
        return if body.Invalid? then Invalid else Limit, changedNow;
      }
      var hunk := PatchHunk(c, body.value.lines);
      if || hunk.lines == [] || oldSeen != c.oldCount || newSeen != c.newCount || changedSeen == 0
         || (isNew && (c.oldStart != 0 || c.oldCount != 0))
         || (c.oldCount > 0 && c.oldStart == 0) || (c.newCount > 0 && c.newStart == 0)
         || (previousEnds.Some? && (c.oldStart < previousEnds.value.0 || c.newStart < previousEnds.value.1))
      {
        return Invalid, changedNow;
      }
      previousEnds := Some(Ends(c));
      changedNow := changedNow + changedSeen;
      ghost var before := hunks;
      hunks := hunks + [hunk];
      assert Front(hunks) == before && Last(hunks) == hunk;
      if changedNow > maximum {
        return Limit, changedNow;
      }
      cursor := body.value.cursor;
    }
    r := Ok(Hunks(hunks, cursor));
  }

  function Ends(c: Coordinates): (nat, nat) { (c.oldStart + c.oldCount, c.newStart + c.newCount) }

  /** One round of the outer loop: the headers and hunks of one file. */
  method ReadOneFile(views: seq<View>, cursor: nat, fileCount: nat, previousPath: Option<string>, changedLineCount: nat, request: Request,
      ghost files: seq<PatchFile>)
    returns (r: Parse<ReadFile>, changedNow: nat)
    requires cursor < |views| && fileCount == |files| && changedLineCount == ChangedInFiles(files)
    requires previousPath == if files == [] then None else Some(Last(files).path)
    ensures r == NextFile(views, cursor, files, request)
    ensures r.Ok? ==> changedNow == changedLineCount + ChangedInHunks(r.value.file.hunks)
  {
    changedNow := changedLineCount;
    var head := HeadAt(views, cursor);
    if head.None? || head.value.path !in request.allowedPaths {
      return Invalid, changedNow;
    }
    if previousPath.Some? && !PathLess(previousPath.value, head.value.path) {
      return Invalid, changedNow;
    }
    if fileCount >= request.policy.maxPatchPaths {
      return Limit, changedNow;
    }
    var found;
    found, changedNow := ReadHunks(views, cursor + 2, head.value.isNew, changedLineCount, request.policy.maxChangedLines);
    if !found.Ok? {
      return if found.Invalid? then Invalid else Limit, changedNow;
    }
    var hunks := found.value;
    if hunks.hunks == [] || (hunks.cursor < |views| && !views[hunks.cursor].startsFile) {
      return Invalid, changedNow;
    }
    r := Ok(ReadFile(PatchFile(head.value.path, head.value.isNew, hunks.hunks), hunks.cursor));
  }

  /** The outer loop: the files of the patch. */
  method ReadFiles(views: seq<View>, request: Request) returns (r: Parse<seq<PatchFile>>, changedLineCount: nat)
    ensures r == ParseFiles(views, 0, [], request)
    ensures r.Ok? ==> changedLineCount == ChangedInFiles(r.value)
  {
    var cursor, files := 0, [];
    var previousPath: Option<string> := None;
    changedLineCount := 0;
    while cursor < |views|
      invariant cursor <= |views|
      invariant ParseFiles(views, 0, [], request) == ParseFiles(views, cursor, files, request)
      invariant changedLineCount == ChangedInFiles(files)
      invariant previousPath == if files == [] then None else Some(Last(files).path)
      decreases |views| - cursor
    {
      var next, changedNow := ReadOneFile(views, cursor, |files|, previousPath, changedLineCount, request, files);
      if !next.Ok? {
        return if next.Invalid? then Invalid else Limit, changedLineCount;
      }
      ghost var before := files;
      files := files + [next.value.file];
      assert Front(files) == before;
      previousPath, cursor, changedLineCount := Some(next.value.file.path), next.value.cursor, changedNow;
    }
    r := Ok(files);
  }

  /** `_parse_wire_patch` */
  method ReadWirePatch(text: string, request: Request) returns (r: Parse<ParsedPatch>)
    ensures r == ParseWirePatch(text, request)
  {
    if !IsCanonicalPaths(request.allowedPaths, 1, 32, request.otherControl) {
      return Invalid;
    }
    if Utf8Length(text) > request.policy.maxPatchBytes {
      return Limit;
    }
    if !TextOk(text, request.otherControl) {
      return Invalid;
    }
    var files, changedLineCount := ReadFiles(Views(PatchLines(text), Viewer(request.otherControl)), request);
    match files
    case Invalid => return Invalid;
    case Limit => return Limit;
    case Ok(parsed) => return Ok(ParsedPatch(text, parsed, changedLineCount));
  }
}

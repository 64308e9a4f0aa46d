/** The wire-patch parser accepts exactly the lines that spell a well-formed patch. */
module WirePatchGrammar {
  import opened LineSplitting
  import opened RepositoryPaths
  import opened WirePatch

  // ----- which lines spell a patch

  predicate BodyAt(views: seq<View>, from: nat, lines: seq<PatchLine>) {
    && from + |lines| <= |views|
    && forall k :: 0 <= k < |lines| ==> views[from + k].line == Some(lines[k]) && !Stops(views[from + k])
  }

  predicate HunkAt(views: seq<View>, from: nat, hunk: PatchHunk) {
    && from < |views| && views[from].startsHunk && views[from].header == Some(hunk.coordinates)
    && BodyAt(views, from + 1, hunk.lines)
  }

  function HunkSize(hunk: PatchHunk): nat { 1 + |hunk.lines| }

  function HunksSize(hunks: seq<PatchHunk>): nat {
    if hunks == [] then 0 else HunksSize(Front(hunks)) + HunkSize(Last(hunks))
  }

  predicate HunksAt(views: seq<View>, from: nat, hunks: seq<PatchHunk>) {
    hunks == [] || (HunksAt(views, from, Front(hunks)) && HunkAt(views, from + HunksSize(Front(hunks)), Last(hunks)))
  }

  predicate FileAt(views: seq<View>, from: nat, file: PatchFile) {
    && from < |views| && HeadAt(views, from) == Some(Head(file.path, file.isNew))
    && HunksAt(views, from + 2, file.hunks)
  }

  function FileSize(file: PatchFile): nat { 2 + HunksSize(file.hunks) }

  function FilesSize(files: seq<PatchFile>): nat {
    if files == [] then 0 else FilesSize(Front(files)) + FileSize(Last(files))
  }

  predicate FilesAt(views: seq<View>, from: nat, files: seq<PatchFile>) {
    files == [] || (FilesAt(views, from, Front(files)) && FileAt(views, from + FilesSize(Front(files)), Last(files)))
  }

  /** No line starts both a hunk and a file, and a readable file header starts a file. */
  predicate Lexed(views: seq<View>) {
    forall k :: 0 <= k < |views| ==>
      !(views[k].startsHunk && views[k].startsFile) && (views[k].oldHead.Some? ==> views[k].startsFile)
  }

  // ----- bodies

  lemma {:induction false} BodyAtMore(views: seq<View>, from: nat, acc: seq<PatchLine>, line: PatchLine)
    requires BodyAt(views, from, acc) && from + |acc| < |views|
    requires views[from + |acc|].line == Some(line) && !Stops(views[from + |acc|])
    ensures BodyAt(views, from, acc + [line])
  {
    var more := acc + [line];
    forall k | 0 <= k < |more| ensures views[from + k].line == Some(more[k]) && !Stops(views[from + k]) {
      assert k < |acc| ==> views[from + k].line == Some(acc[k]) && !Stops(views[from + k]);
    }
  }

  lemma {:induction false} BodyAtFront(views: seq<View>, from: nat, lines: seq<PatchLine>)
    requires BodyAt(views, from, lines) && lines != []
    ensures BodyAt(views, from, Front(lines)) && from + |Front(lines)| < |views|
    ensures views[from + |Front(lines)|].line == Some(Last(lines)) && !Stops(views[from + |Front(lines)|])
  {
    var before := Front(lines);
    forall k | 0 <= k < |before| ensures views[from + k].line == Some(before[k]) && !Stops(views[from + k]) {
      assert views[from + k].line == Some(lines[k]);
    }
    assert views[from + |before|].line == Some(lines[|before|]);
  }

  /** A body that parses is spelled by its lines, up to a stopping line. */
  lemma {:induction false} BodySound(views: seq<View>, from: nat, cursor: nat, acc: seq<PatchLine>)
    requires from <= cursor <= |views| && cursor == from + |acc| && BodyAt(views, from, acc) && BodyOk(acc)
    requires ParseBody(views, cursor, acc).Ok?
    ensures
      var body := ParseBody(views, cursor, acc).value;
      && BodyAt(views, from, body.lines) && BodyOk(body.lines) && body.cursor == from + |body.lines|
      && EndsHunk(views, body.cursor)
    decreases |views| - cursor
  {
    if cursor < |views| && !Stops(views[cursor]) {
      var line := views[cursor].line.value;
      assert Front(acc + [line]) == acc && Last(acc + [line]) == line;
      BodyAtMore(views, from, acc, line);
      BodySound(views, from, cursor + 1, acc + [line]);
    }
  }

  /** What may come after a hunk: the end, a hunk header or a file header. */
  predicate EndsHunk(views: seq<View>, at: nat) {
    at <= |views| && (at < |views| ==> Stops(views[at]))
  }

  /** Spelled lines parse back, one by one. */
  lemma {:induction false} BodyReaches(views: seq<View>, from: nat, lines: seq<PatchLine>)
    requires BodyAt(views, from, lines) && BodyOk(lines)
    ensures ParseBody(views, from, []) == ParseBody(views, from + |lines|, lines)
  {
    if lines != [] {
      var before := Front(lines);
      BodyAtFront(views, from, lines);
      BodyReaches(views, from, before);
      assert lines == before + [Last(lines)];
    }
  }

  lemma {:induction false} BodyComplete(views: seq<View>, from: nat, lines: seq<PatchLine>)
    requires BodyAt(views, from, lines) && BodyOk(lines) && EndsHunk(views, from + |lines|)
    ensures ParseBody(views, from, []) == Ok(Body(lines, from + |lines|))
  {
    BodyReaches(views, from, lines);
  }

  // ----- hunks

  lemma {:induction false} HunksStep(views: seq<View>, from: nat, hunks: seq<PatchHunk>, hunk: PatchHunk, isNew: bool)
    ensures HunksOk(hunks + [hunk], isNew) <==> HunksOk(hunks, isNew) && BodyOk(hunk.lines) && HunkFits(hunk, hunks, isNew)
    ensures HunksAt(views, from, hunks + [hunk]) <==> HunksAt(views, from, hunks) && HunkAt(views, from + HunksSize(hunks), hunk)
    ensures HunksSize(hunks + [hunk]) == HunksSize(hunks) + HunkSize(hunk)
    ensures ChangedInHunks(hunks + [hunk]) == ChangedInHunks(hunks) + Changed(hunk.lines)
  {
    assert Front(hunks + [hunk]) == hunks && Last(hunks + [hunk]) == hunk;
  }

  lemma {:induction false} HunkSound(views: seq<View>, cursor: nat)
    requires cursor < |views| && views[cursor].startsHunk && views[cursor].header.Some?
    requires ParseBody(views, cursor + 1, []).Ok?
    ensures
      var body := ParseBody(views, cursor + 1, []).value;
      var hunk := PatchHunk(views[cursor].header.value, body.lines);
      HunkAt(views, cursor, hunk) && BodyOk(body.lines) && body.cursor == cursor + HunkSize(hunk)
  {
    BodySound(views, cursor + 1, cursor + 1, []);
  }

  lemma {:induction false} HunksSound(views: seq<View>, from: nat, cursor: nat, acc: seq<PatchHunk>, isNew: bool, changed: nat, maximum: nat)
    requires from <= cursor <= |views| && cursor == from + HunksSize(acc) && HunksAt(views, from, acc) && HunksOk(acc, isNew)
    requires acc != [] ==> changed + ChangedInHunks(acc) <= maximum
    requires ParseHunks(views, cursor, acc, isNew, changed, maximum).Ok?
    ensures
      var found := ParseHunks(views, cursor, acc, isNew, changed, maximum).value;
      && HunksAt(views, from, found.hunks) && HunksOk(found.hunks, isNew) && found.cursor == from + HunksSize(found.hunks)
      && (found.hunks != [] ==> changed + ChangedInHunks(found.hunks) <= maximum)
      && (found.cursor < |views| ==> !views[found.cursor].startsHunk)
    decreases |views| - cursor
  {
    if cursor < |views| && views[cursor].startsHunk {
      var body := ParseBody(views, cursor + 1, []).value;
      var hunk := PatchHunk(views[cursor].header.value, body.lines);
      HunkSound(views, cursor);
      HunksStep(views, from, acc, hunk, isNew);
      HunksSound(views, from, body.cursor, acc + [hunk], isNew, changed, maximum);
    }
  }

  lemma {:induction false} HunkStarts(views: seq<View>, at: nat, hunk: PatchHunk)
    requires HunkAt(views, at, hunk)
    ensures EndsHunk(views, at)
  {
  }

  /** One spelled hunk is parsed in one step. */
  lemma {:induction false} HunkComplete(views: seq<View>, cursor: nat, acc: seq<PatchHunk>, hunk: PatchHunk, isNew: bool, changed: nat, maximum: nat)
    requires HunkAt(views, cursor, hunk) && BodyOk(hunk.lines) && HunkFits(hunk, acc, isNew)
    requires EndsHunk(views, cursor + HunkSize(hunk))
    requires changed + ChangedInHunks(acc + [hunk]) <= maximum
    ensures ParseHunks(views, cursor, acc, isNew, changed, maximum)
      == ParseHunks(views, cursor + HunkSize(hunk), acc + [hunk], isNew, changed, maximum)
  {
    BodyComplete(views, cursor + 1, hunk.lines);
  }

  /** A reader that takes each spelled hunk in one step takes them all. */
  lemma {:induction false} HunksReached<R(!new)>(views: seq<View>, from: nat, hunks: seq<PatchHunk>, isNew: bool, room: nat, read: (nat, seq<PatchHunk>) -> R)
    requires HunksAt(views, from, hunks) && HunksOk(hunks, isNew) && EndsHunk(views, from + HunksSize(hunks))
    requires ChangedInHunks(hunks) <= room
    requires TakesHunks(views, isNew, room, read)
    ensures read(from, []) == read(from + HunksSize(hunks), hunks)
  {
    if hunks != [] {
      var before, hunk := Front(hunks), Last(hunks);
      HunkStarts(views, from + HunksSize(before), hunk);
      HunksReached(views, from, before, isNew, room, read);
      assert hunks == before + [hunk];
      assert CanTake(views, from + HunksSize(before), before, hunk, isNew, room);
    }
  }

  ghost predicate CanTake(views: seq<View>, cursor: nat, acc: seq<PatchHunk>, hunk: PatchHunk, isNew: bool, room: nat) {
    && HunkAt(views, cursor, hunk) && BodyOk(hunk.lines) && HunkFits(hunk, acc, isNew)
    && EndsHunk(views, cursor + HunkSize(hunk)) && ChangedInHunks(acc + [hunk]) <= room
  }

  ghost predicate TakesHunks<R(!new)>(views: seq<View>, isNew: bool, room: nat, read: (nat, seq<PatchHunk>) -> R) {
    forall cursor: nat, acc, hunk :: CanTake(views, cursor, acc, hunk, isNew, room) ==>
      read(cursor, acc) == read(cursor + HunkSize(hunk), acc + [hunk])
  }

  function HunkReader(views: seq<View>, isNew: bool, changed: nat, maximum: nat): (nat, seq<PatchHunk>) -> Parse<Hunks> {
    (cursor: nat, acc: seq<PatchHunk>) => if cursor <= |views| then ParseHunks(views, cursor, acc, isNew, changed, maximum) else Invalid
  }

  lemma {:induction false} HunkReaderTakes(views: seq<View>, isNew: bool, changed: nat, maximum: nat)
    requires changed <= maximum
    ensures TakesHunks(views, isNew, maximum - changed, HunkReader(views, isNew, changed, maximum))
  {
    forall cursor: nat, acc, hunk | CanTake(views, cursor, acc, hunk, isNew, maximum - changed)
      ensures ParseHunks(views, cursor, acc, isNew, changed, maximum)
        == ParseHunks(views, cursor + HunkSize(hunk), acc + [hunk], isNew, changed, maximum)
    {
      HunkComplete(views, cursor, acc, hunk, isNew, changed, maximum);
    }
  }

  /** Spelled hunks are all parsed, one after the other. */
  lemma {:induction false} HunksComplete(views: seq<View>, from: nat, hunks: seq<PatchHunk>, isNew: bool, changed: nat, maximum: nat)
    requires from <= |views| && HunksAt(views, from, hunks) && HunksOk(hunks, isNew) && EndsHunk(views, from + HunksSize(hunks))
    requires changed + ChangedInHunks(hunks) <= maximum
    ensures ParseHunks(views, from, [], isNew, changed, maximum)
      == ParseHunks(views, from + HunksSize(hunks), hunks, isNew, changed, maximum)
  {
    var read := HunkReader(views, isNew, changed, maximum);
    HunkReaderTakes(views, isNew, changed, maximum);
    HunksReached(views, from, hunks, isNew, maximum - changed, read);
    assert read(from, []) == ParseHunks(views, from, [], isNew, changed, maximum);
  }

  // ----- files

  lemma {:induction false} FilesAtStep(views: seq<View>, from: nat, files: seq<PatchFile>, file: PatchFile)
    ensures FilesAt(views, from, files + [file]) <==> FilesAt(views, from, files) && FileAt(views, from + FilesSize(files), file)
    ensures FilesSize(files + [file]) == FilesSize(files) + FileSize(file)
    ensures ChangedInFiles(files + [file]) == ChangedInFiles(files) + ChangedInHunks(file.hunks)
  {
    assert Front(files + [file]) == files && Last(files + [file]) == file;
  }

  /** One round of the parser: a file that is accepted is spelled and fits. */
  lemma {:induction false} FileSound(views: seq<View>, cursor: nat, acc: seq<PatchFile>, request: Request)
    requires cursor < |views| && NextFile(views, cursor, acc, request).Ok?
    ensures
      var next := NextFile(views, cursor, acc, request).value;
      CanGrow(views, cursor, acc, next.file, request) && next.cursor == cursor + FileSize(next.file)
  {
    var file := NextFile(views, cursor, acc, request).value.file;
    HunksSound(views, cursor + 2, cursor + 2, [], file.isNew, ChangedInFiles(acc), request.policy.maxChangedLines);
  }

  lemma {:induction false} OneMoreFileOk(acc: seq<PatchFile>, file: PatchFile, request: Request)
    requires FilesOk(acc, request) && FileFits(file, acc, request)
    requires |acc| < request.policy.maxPatchPaths && ChangedInFiles(acc) + ChangedInHunks(file.hunks) <= request.policy.maxChangedLines
    ensures FilesOk(acc + [file], request) && WithinLimits(acc + [file], request.policy)
  {
    assert Front(acc + [file]) == acc && Last(acc + [file]) == file;
  }

  /** What is known of the files read so far. */
  ghost predicate Holds(views: seq<View>, cursor: nat, acc: seq<PatchFile>, request: Request) {
    cursor == FilesSize(acc) && FilesAt(views, 0, acc) && FilesOk(acc, request) && WithinLimits(acc, request.policy)
  }

  ghost predicate CanGrow(views: seq<View>, cursor: nat, acc: seq<PatchFile>, file: PatchFile, request: Request) {
    && FileAt(views, cursor, file) && FileFits(file, acc, request)
    && |acc| < request.policy.maxPatchPaths && ChangedInFiles(acc) + ChangedInHunks(file.hunks) <= request.policy.maxChangedLines
  }

  ghost predicate Grows(views: seq<View>, request: Request, known: (nat, seq<PatchFile>) -> bool) {
    forall cursor: nat, acc, file :: known(cursor, acc) && CanGrow(views, cursor, acc, file, request) ==>
      known(cursor + FileSize(file), acc + [file])
  }

  /** What every accepted file keeps is known of the whole. */
  lemma {:induction false} FilesKept(views: seq<View>, cursor: nat, acc: seq<PatchFile>, request: Request, known: (nat, seq<PatchFile>) -> bool)
    requires cursor <= |views| && known(cursor, acc) && Grows(views, request, known)
    requires ParseFiles(views, cursor, acc, request).Ok?
    ensures known(|views|, ParseFiles(views, cursor, acc, request).value)
    decreases |views| - cursor
  {
    if cursor < |views| {
      var next := NextFile(views, cursor, acc, request).value;
      FileSound(views, cursor, acc, request);
      FilesKept(views, next.cursor, acc + [next.file], request, known);
    }
  }

  /** What the parser returns is well formed, within limits, and spelled by all the lines. */
  lemma {:induction false} FilesSound(views: seq<View>, request: Request)
    requires ParseFiles(views, 0, [], request).Ok?
    ensures
      var files := ParseFiles(views, 0, [], request).value;
      && FilesAt(views, 0, files) && FilesSize(files) == |views| && FilesOk(files, request) && WithinLimits(files, request.policy)
  {
    var known := (cursor: nat, acc: seq<PatchFile>) => Holds(views, cursor, acc, request);
    forall cursor: nat, acc, file | Holds(views, cursor, acc, request) && CanGrow(views, cursor, acc, file, request)
      ensures Holds(views, cursor + FileSize(file), acc + [file], request)
    {
      OneMoreFileOk(acc, file, request);
      FilesAtStep(views, 0, acc, file);
    }
    FilesKept(views, 0, [], request, known);
  }

  /** Where a file may end: at the end or before another file's header. */
  predicate EndsFile(views: seq<View>, at: nat) {
    at <= |views| && (at < |views| ==> views[at].startsFile)
  }

  lemma {:induction false} FileHunksComplete(views: seq<View>, from: nat, hunks: seq<PatchHunk>, isNew: bool, changed: nat, maximum: nat)
    requires Lexed(views) && HunksAt(views, from, hunks) && HunksOk(hunks, isNew) && EndsFile(views, from + HunksSize(hunks))
    requires changed + ChangedInHunks(hunks) <= maximum
    ensures from <= |views| && ParseHunks(views, from, [], isNew, changed, maximum) == Ok(Hunks(hunks, from + HunksSize(hunks)))
  {
    var end := from + HunksSize(hunks);
    assert end < |views| ==> views[end].startsFile && !views[end].startsHunk;
    HunksComplete(views, from, hunks, isNew, changed, maximum);
    assert ParseHunks(views, end, hunks, isNew, changed, maximum) == Ok(Hunks(hunks, end));
  }

  lemma {:induction false} FileComplete(views: seq<View>, cursor: nat, acc: seq<PatchFile>, file: PatchFile, request: Request)
    requires Lexed(views) && CanTakeFile(views, cursor, acc, file, request)
    ensures NextFile(views, cursor, acc, request) == Ok(ReadFile(file, cursor + FileSize(file)))
  {
    FileHunksComplete(views, cursor + 2, file.hunks, file.isNew, ChangedInFiles(acc), request.policy.maxChangedLines);
    FileIsAccepted(views, cursor, acc, file, cursor + FileSize(file), request);
  }

  /** A parser that sees all that makes a file returns it. */
  lemma {:induction false} FileIsAccepted(views: seq<View>, cursor: nat, acc: seq<PatchFile>, file: PatchFile, next: nat, request: Request)
    requires cursor + 2 <= next <= |views| && HeadAt(views, cursor) == Some(Head(file.path, file.isNew))
    requires ParseHunks(views, cursor + 2, [], file.isNew, ChangedInFiles(acc), request.policy.maxChangedLines) == Ok(Hunks(file.hunks, next))
    requires file.path in request.allowedPaths && (acc != [] ==> PathLess(Last(acc).path, file.path)) && file.hunks != []
    requires |acc| < request.policy.maxPatchPaths && EndsFile(views, next)
    ensures NextFile(views, cursor, acc, request) == Ok(ReadFile(file, next))
  {
  }

  ghost predicate CanTakeFile(views: seq<View>, cursor: nat, acc: seq<PatchFile>, file: PatchFile, request: Request) {
    CanGrow(views, cursor, acc, file, request) && EndsFile(views, cursor + FileSize(file))
  }

  ghost predicate TakesFiles<R(!new)>(views: seq<View>, request: Request, read: (nat, seq<PatchFile>) -> R) {
    forall cursor: nat, acc, file :: CanTakeFile(views, cursor, acc, file, request) ==>
      read(cursor, acc) == read(cursor + FileSize(file), acc + [file])
  }

  /** A reader that takes each spelled file in one step takes them all. */
  lemma {:induction false} FilesReached<R(!new)>(views: seq<View>, files: seq<PatchFile>, request: Request, read: (nat, seq<PatchFile>) -> R)
    requires Lexed(views) && FilesAt(views, 0, files) && FilesOk(files, request) && WithinLimits(files, request.policy)
    requires EndsFile(views, FilesSize(files)) && TakesFiles(views, request, read)
    ensures read(0, []) == read(FilesSize(files), files)
  {
    if files != [] {
      var before, file := Front(files), Last(files);
      FileStarts(views, FilesSize(before), file);
      FilesReached(views, before, request, read);
      assert files == before + [file];
      assert CanTakeFile(views, FilesSize(before), before, file, request);
    }
  }

  lemma {:induction false} FileStarts(views: seq<View>, at: nat, file: PatchFile)
    requires Lexed(views) && FileAt(views, at, file)
    ensures EndsFile(views, at)
  {
  }

  function FileReader(views: seq<View>, request: Request): (nat, seq<PatchFile>) -> Parse<seq<PatchFile>> {
    (cursor: nat, acc: seq<PatchFile>) => if cursor <= |views| then ParseFiles(views, cursor, acc, request) else Invalid
  }

  lemma {:induction false} FileReaderTakes(views: seq<View>, request: Request)
    requires Lexed(views)
    ensures TakesFiles(views, request, FileReader(views, request))
  {
    forall cursor: nat, acc, file | CanTakeFile(views, cursor, acc, file, request)
      ensures ParseFiles(views, cursor, acc, request) == ParseFiles(views, cursor + FileSize(file), acc + [file], request)
    {
      FileComplete(views, cursor, acc, file, request);
    }
  }

  /** A spelled, well-formed patch within limits parses back. */
  lemma {:induction false} FilesComplete(views: seq<View>, files: seq<PatchFile>, request: Request)
    requires Lexed(views) && FilesAt(views, 0, files) && FilesOk(files, request) && WithinLimits(files, request.policy)
    requires EndsFile(views, FilesSize(files))
    ensures ParseFiles(views, 0, [], request) == ParseFiles(views, FilesSize(files), files, request)
  {
    FileReaderTakes(views, request);
    FilesReached(views, files, request, FileReader(views, request));
  }
}

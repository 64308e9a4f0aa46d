/** The strict wire-patch format: its lines, its rules, and the parser over lines.

    It is a restriction of the unified format of IEEE Std 1003.1-2017 ("Diff -u or -U Output
    Format"): file headers, hunks with counts, and the no-newline marker. */
module WirePatch {
  import opened LineSplitting
  import opened HunkHeaders
  import opened RepositoryPaths

  datatype LineKind = Context | Addition | Deletion | NoNewline

  datatype PatchLine = PatchLine(kind: LineKind, content: string)

  datatype PatchHunk = PatchHunk(coordinates: Coordinates, lines: seq<PatchLine>)

  datatype PatchFile = PatchFile(path: string, isNew: bool, hunks: seq<PatchHunk>)

  datatype ParsedPatch = ParsedPatch(source: string, files: seq<PatchFile>, changedLineCount: nat)

  datatype Policy = Policy(maxPatchBytes: nat, maxPatchPaths: nat, maxChangedLines: nat)

  /** Everything the parser is given besides the text. */
  datatype Request = Request(allowedPaths: seq<string>, policy: Policy, otherControl: char -> bool)

  datatype Parse<+T> = Ok(value: T) | Invalid | Limit

  const NO_NEWLINE_MARKER := "\\ No newline at end of file"

  // ----- lines

  predicate EndsWithLf(line: string) { line != [] && Last(line) == '\n' }

  function RenderLine(line: PatchLine): string {
    match line.kind
    case Context => " " + line.content + "\n"
    case Addition => "+" + line.content + "\n"
    case Deletion => "-" + line.content + "\n"
    case NoNewline => NO_NEWLINE_MARKER + "\n"
  }

  /** `_parse_hunk_line`, given a line without its LF. */
  function ParseHunkLine(value: string): Option<PatchLine> {
    if value == NO_NEWLINE_MARKER then Some(PatchLine(NoNewline, ""))
    else if value == [] then None
    else if value[0] == ' ' then Some(PatchLine(Context, value[1..]))
    else if value[0] == '+' then Some(PatchLine(Addition, value[1..]))
    else if value[0] == '-' then Some(PatchLine(Deletion, value[1..]))
    else None
  }

  /** A line that can be told apart from a header: a deletion must not start with "-- ". */
  predicate IsBodyLine(line: PatchLine) {
    && (line.kind == NoNewline ==> line.content == "")
    && (line.kind == Deletion ==> !("-- " <= line.content))
  }

  // ----- what the parser asks of one line

  datatype OldHead = NewFile | OldPath(path: string)

  /** A line as every branch of the parser sees it. */
  datatype View = View(
    startsHunk: bool,
    startsFile: bool,
    header: Option<Coordinates>,
    line: Option<PatchLine>,
    oldHead: Option<OldHead>,
    newPath: Option<string>)

  /** The lines that end a hunk body. */
  predicate Stops(view: View) { view.startsHunk || view.startsFile }

  function OldHeadOf(value: string): Option<OldHead> {
    if '\t' in value then None
    else if value == "/dev/null" then Some(NewFile)
    else if "a/" <= value then Some(OldPath(value[2..]))
    else None
  }

  function NewPathOf(value: string, other: char -> bool): Option<string> {
    if '\t' in value || !("b/" <= value) || !IsRepositoryPath(value[2..], other) then None else Some(value[2..])
  }

  function ViewOf(raw: string, other: char -> bool): View {
    if !EndsWithLf(raw) then View("@@ " <= raw, "--- " <= raw, None, None, None, None)
    else
      var value := Front(raw);
      View("@@ " <= raw, "--- " <= raw, ParseHunkHeader(value), ParseHunkLine(value),
           if "--- " <= value then OldHeadOf(value[4..]) else None,
           if "+++ " <= value then NewPathOf(value[4..], other) else None)
  }

  function Viewer(other: char -> bool): string -> View { raw => ViewOf(raw, other) }

  function Views(raw: seq<string>, view: string -> View): seq<View> {
    seq(|raw|, i requires 0 <= i < |raw| => view(raw[i]))
  }

  // ----- counting

  function OldSide(lines: seq<PatchLine>): nat {
    if lines == [] then 0
    else OldSide(Front(lines)) + (if Last(lines).kind in [Context, Deletion] then 1 else 0)
  }

  function NewSide(lines: seq<PatchLine>): nat {
    if lines == [] then 0
    else NewSide(Front(lines)) + (if Last(lines).kind in [Context, Addition] then 1 else 0)
  }

  function Changed(lines: seq<PatchLine>): nat {
    if lines == [] then 0
    else Changed(Front(lines)) + (if Last(lines).kind in [Addition, Deletion] then 1 else 0)
  }

  function ChangedInHunks(hunks: seq<PatchHunk>): nat {
    if hunks == [] then 0 else ChangedInHunks(Front(hunks)) + Changed(Last(hunks).lines)
  }

  function ChangedInFiles(files: seq<PatchFile>): nat {
    if files == [] then 0 else ChangedInFiles(Front(files)) + ChangedInHunks(Last(files).hunks)
  }

  // ----- the rules of a well-formed patch

  /** A no-newline marker comes right after a content line. */
  predicate MarkerAllowed(before: seq<PatchLine>) {
    before != [] && Last(before).kind != NoNewline
  }

  predicate BodyOk(lines: seq<PatchLine>) {
    lines == [] || (BodyOk(Front(lines)) && (Last(lines).kind == NoNewline ==> MarkerAllowed(Front(lines))))
  }

  /** The checks on one hunk: counts match the lines, there is a change, and starts are real. */
  predicate CountsOk(hunk: PatchHunk, isNew: bool) {
    var c := hunk.coordinates;
    && hunk.lines != []
    && OldSide(hunk.lines) == c.oldCount && NewSide(hunk.lines) == c.newCount
    && Changed(hunk.lines) > 0
    && (isNew ==> c.oldStart == 0 && c.oldCount == 0)
    && (c.oldCount > 0 ==> c.oldStart > 0) && (c.newCount > 0 ==> c.newStart > 0)
  }

  predicate Advances(before: PatchHunk, after: PatchHunk) {
    && before.coordinates.oldStart + before.coordinates.oldCount <= after.coordinates.oldStart
    && before.coordinates.newStart + before.coordinates.newCount <= after.coordinates.newStart
  }

  /** The checks made when a hunk is complete. */
  predicate HunkFits(hunk: PatchHunk, before: seq<PatchHunk>, isNew: bool) {
    CountsOk(hunk, isNew) && (before != [] ==> Advances(Last(before), hunk))
  }

  predicate HunksOk(hunks: seq<PatchHunk>, isNew: bool) {
    hunks == [] || (HunksOk(Front(hunks), isNew) && BodyOk(Last(hunks).lines) && HunkFits(Last(hunks), Front(hunks), isNew))
  }

  predicate FileFits(file: PatchFile, before: seq<PatchFile>, request: Request) {
    && file.path in request.allowedPaths
    && file.hunks != [] && HunksOk(file.hunks, file.isNew)
    && (before != [] ==> PathLess(Last(before).path, file.path))
  }

  predicate FilesOk(files: seq<PatchFile>, request: Request) {
    files == [] || (FilesOk(Front(files), request) && FileFits(Last(files), Front(files), request))
  }

  predicate WithinLimits(files: seq<PatchFile>, policy: Policy) {
    |files| <= policy.maxPatchPaths && ChangedInFiles(files) <= policy.maxChangedLines
  }

  // ----- the parser over lines

  datatype Body = Body(lines: seq<PatchLine>, cursor: nat)

  /** The lines of a hunk from `cursor`, after those already read. */
  function ParseBody(views: seq<View>, cursor: nat, acc: seq<PatchLine>): (r: Parse<Body>)
    requires cursor <= |views|
    ensures r.Ok? ==> cursor <= r.value.cursor <= |views|
    decreases |views| - cursor
  {
    if cursor == |views| || Stops(views[cursor]) then Ok(Body(acc, cursor))
    else
      var line := views[cursor].line;
      if line.None? || (line.value.kind == NoNewline && !MarkerAllowed(acc)) then Invalid
      else ParseBody(views, cursor + 1, acc + [line.value])
  }

  datatype Hunks = Hunks(hunks: seq<PatchHunk>, cursor: nat)

  /** The hunks of a file from `cursor`; `changed` counts the changed lines of all earlier files. */
  function ParseHunks(views: seq<View>, cursor: nat, acc: seq<PatchHunk>, isNew: bool, changed: nat, maximum: nat): (r: Parse<Hunks>)
    requires cursor <= |views|
    ensures r.Ok? ==> cursor <= r.value.cursor <= |views|
    decreases |views| - cursor
  {
    if cursor == |views| || !views[cursor].startsHunk then Ok(Hunks(acc, cursor))
    else if views[cursor].header.None? then Invalid
    else
      match ParseBody(views, cursor + 1, [])
      case Invalid => Invalid
      case Limit => Limit
      case Ok(body) =>
        var hunk := PatchHunk(views[cursor].header.value, body.lines);
        if !HunkFits(hunk, acc, isNew) then Invalid
        else if changed + ChangedInHunks(acc + [hunk]) > maximum then Limit
        else ParseHunks(views, body.cursor, acc + [hunk], isNew, changed, maximum)
  }

  datatype Head = Head(path: string, isNew: bool)

  /** `_parse_file_headers` on the two header lines at `cursor`. */
  function HeadAt(views: seq<View>, cursor: nat): Option<Head>
    requires cursor < |views|
  {
    if views[cursor].oldHead.None? || cursor + 1 == |views| || views[cursor + 1].newPath.None? then None
    else
      var path := views[cursor + 1].newPath.value;
      match views[cursor].oldHead.value
      case NewFile => Some(Head(path, true))
      case OldPath(oldPath) => if oldPath == path then Some(Head(path, false)) else None
  }

  datatype ReadFile = ReadFile(file: PatchFile, cursor: nat)

  /** The file at `cursor`, after those already read. */
  function NextFile(views: seq<View>, cursor: nat, acc: seq<PatchFile>, request: Request): (r: Parse<ReadFile>)
    requires cursor < |views|
    ensures r.Ok? ==> cursor < r.value.cursor <= |views|
  {
    var head := HeadAt(views, cursor);
    if head.None? || head.value.path !in request.allowedPaths then Invalid
    else if acc != [] && !PathLess(Last(acc).path, head.value.path) then Invalid
    else if |acc| >= request.policy.maxPatchPaths then Limit
    else
      match ParseHunks(views, cursor + 2, [], head.value.isNew, ChangedInFiles(acc), request.policy.maxChangedLines)
      case Invalid => Invalid
      case Limit => Limit
      case Ok(found) =>
        if found.hunks == [] || (found.cursor < |views| && !views[found.cursor].startsFile) then Invalid
        else Ok(ReadFile(PatchFile(head.value.path, head.value.isNew, found.hunks), found.cursor))
  }

  function ParseFiles(views: seq<View>, cursor: nat, acc: seq<PatchFile>, request: Request): Parse<seq<PatchFile>>
    requires cursor <= |views|
    decreases |views| - cursor
  {
    if cursor == |views| then Ok(acc)
    else
      match NextFile(views, cursor, acc, request)
      case Invalid => Invalid
      case Limit => Limit
      case Ok(next) => ParseFiles(views, next.cursor, acc + [next.file], request)
  }

  // ----- the whole text

  /** Every separator of `str.splitlines` but CR, which is rejected before splitting. */
  predicate IsLineBreak(c: char) {
    c in ['\n', '\U{0B}', '\U{0C}', '\U{1C}', '\U{1D}', '\U{1E}', '\U{85}', '\U{2028}', '\U{2029}']
  }

  predicate IsPatchChar(c: char, other: char -> bool) {
    c == '\n' || c == '\t' || !IsControl(c, other)
  }

  /** `_validated_patch_bytes`, after the size check. */
  predicate TextOk(text: string, other: char -> bool) {
    text != [] && Last(text) == '\n' && forall i :: 0 <= i < |text| ==> IsPatchChar(text[i], other)
  }

  function PatchLines(text: string): seq<string> { Lines(text, IsLineBreak) }

  function ParseWirePatch(text: string, request: Request): Parse<ParsedPatch> {
    if !IsCanonicalPaths(request.allowedPaths, 1, 32, request.otherControl) then Invalid
    else if Utf8Length(text) > request.policy.maxPatchBytes then Limit
    else if !TextOk(text, request.otherControl) then Invalid
    else
      match ParseFiles(Views(PatchLines(text), Viewer(request.otherControl)), 0, [], request)
      case Invalid => Invalid
      case Limit => Limit
      case Ok(files) => Ok(ParsedPatch(text, files, ChangedInFiles(files)))
  }
}

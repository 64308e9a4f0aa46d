/** Wire patches as text: printing, the round trip, and exactly which texts are accepted. */
module WirePatchText {
  import opened LineSplitting
  import opened Numerals
  import opened HunkHeaders
  import opened RepositoryPaths
  import opened WirePatch
  import opened WirePatchGrammar

  // ----- printing

  function RenderLines(lines: seq<PatchLine>): seq<string> {
    seq(|lines|, i requires 0 <= i < |lines| => RenderLine(lines[i]))
  }

  function HeaderLine(c: Coordinates): string { PrintHeader(c, false, false) + "\n" }

  function RenderHunk(hunk: PatchHunk): seq<string> {
    [HeaderLine(hunk.coordinates)] + RenderLines(hunk.lines)
  }

  function RenderHunks(hunks: seq<PatchHunk>): seq<string> {
    if hunks == [] then [] else RenderHunks(Front(hunks)) + RenderHunk(Last(hunks))
  }

  function OldHeader(path: string, isNew: bool): string {
    "--- " + (if isNew then "/dev/null" else "a/" + path) + "\n"
  }

  function NewHeader(path: string): string { "+++ " + ("b/" + path) + "\n" }

  function RenderFile(file: PatchFile): seq<string> {
    [OldHeader(file.path, file.isNew), NewHeader(file.path)] + RenderHunks(file.hunks)
  }

  function RenderFiles(files: seq<PatchFile>): seq<string> {
    if files == [] then [] else RenderFiles(Front(files)) + RenderFile(Last(files))
  }

  function PrintPatch(files: seq<PatchFile>): string { Flatten(RenderFiles(files)) }

  // ----- what a rendered line looks like to the parser

  lemma {:induction false} LexedViews(raw: seq<string>, other: char -> bool)
    ensures Lexed(Views(raw, Viewer(other)))
  {
    assert "@@ "[0] != "--- "[0];
    forall k | 0 <= k < |raw|
      ensures !("@@ " <= raw[k] && "--- " <= raw[k])
      ensures ViewOf(raw[k], other).oldHead.Some? ==> "--- " <= raw[k]
    {
      if "@@ " <= raw[k] {
        assert raw[k][0] == "@@ "[0];
      }
      if EndsWithLf(raw[k]) && "--- " <= Front(raw[k]) {
        assert raw[k] == Front(raw[k]) + "\n";
      }
    }
  }

  lemma {:induction false} DeletionStops(content: string)
    ensures "--- " <= "-" + content + "\n" <==> "-- " <= content
  {
    var raw := "-" + content + "\n";
    if "--- " <= raw {
      assert raw[1] == '-' && raw[2] == '-' && raw[3] == ' ';
      assert content[0] == '-' && content[1] == '-' && content[2] == ' ';
    }
    if "-- " <= content {
      assert raw[1] == '-' && raw[2] == '-' && raw[3] == ' ';
    }
  }

  /** Only a deletion whose text starts with "-- " can be taken for a header. */
  lemma {:induction false} RenderedStops(line: PatchLine)
    ensures "--- " <= RenderLine(line) <==> line.kind == Deletion && "-- " <= line.content
    ensures !("@@ " <= RenderLine(line))
  {
    var raw := RenderLine(line);
    assert "@@ "[0] == '@' && "--- "[0] == '-';
    if line.kind == Deletion {
      DeletionStops(line.content);
      assert raw[0] == '-';
    } else {
      assert raw[0] in [' ', '+', '\\'];
    }
  }

  lemma {:induction false} HunkLineRoundTrip(line: PatchLine)
    requires line.kind == NoNewline ==> line.content == ""
    ensures EndsWithLf(RenderLine(line)) && ParseHunkLine(Front(RenderLine(line))) == Some(line)
  {
    var raw := RenderLine(line);
    if line.kind == NoNewline {
      assert Front(raw) == NO_NEWLINE_MARKER;
    } else {
      assert Front(raw)[1..] == line.content;
      assert Front(raw)[0] == raw[0] && NO_NEWLINE_MARKER[0] == '\\';
    }
  }

  /** A body line is accepted in exactly one spelling. */
  lemma {:induction false} HunkLineIsRendered(raw: string, other: char -> bool)
    requires ViewOf(raw, other).line.Some? && !Stops(ViewOf(raw, other))
    ensures var line := ViewOf(raw, other).line.value; RenderLine(line) == raw && IsBodyLine(line)
  {
    LineOfView(raw, other);
    HunkLineText(Front(raw));
    RenderedStops(ParseHunkLine(Front(raw)).value);
  }

  lemma {:induction false} LineOfView(raw: string, other: char -> bool)
    requires ViewOf(raw, other).line.Some?
    ensures EndsWithLf(raw) && raw == Front(raw) + "\n" && ViewOf(raw, other).line == ParseHunkLine(Front(raw))
  {
  }

  lemma {:induction false} HunkLineText(value: string)
    requires ParseHunkLine(value).Some?
    ensures RenderLine(ParseHunkLine(value).value) == value + "\n"
  {
    if value != NO_NEWLINE_MARKER {
      assert value == [value[0]] + value[1..];
    }
  }

  lemma {:induction false} ViewOfLine(line: PatchLine, other: char -> bool)
    requires IsBodyLine(line)
    ensures ViewOf(RenderLine(line), other).line == Some(line) && !Stops(ViewOf(RenderLine(line), other))
  {
    HunkLineRoundTrip(line);
    RenderedStops(line);
  }

  lemma {:induction false} ViewOfHeader(c: Coordinates, other: char -> bool)
    ensures var v := ViewOf(HeaderLine(c), other); v.startsHunk && v.header == Some(c)
  {
    ParsePrintedHeader(c, false, false);
    var raw := HeaderLine(c);
    assert Front(raw) == PrintHeader(c, false, false);
  }

  lemma {:induction false} ViewOfOldHeader(path: string, isNew: bool, other: char -> bool)
    requires '\t' !in path
    ensures ViewOf(OldHeader(path, isNew), other).oldHead == Some(if isNew then NewFile else OldPath(path))
  {
    var raw, value := OldHeader(path, isNew), if isNew then "/dev/null" else "a/" + path;
    assert Front(raw) == "--- " + value;
    assert Front(raw)[4..] == value;
    assert "--- " <= Front(raw);
    if !isNew {
      assert value[2..] == path && "a/" <= value;
      assert value[0] == 'a' && "/dev/null"[0] == '/';
    }
  }

  lemma {:induction false} ViewOfNewHeader(path: string, other: char -> bool)
    requires IsRepositoryPath(path, other)
    ensures ViewOf(NewHeader(path), other).newPath == Some(path)
  {
    var raw, value := NewHeader(path), "b/" + path;
    assert Front(raw) == "+++ " + value;
    assert Front(raw)[4..] == value;
    assert "+++ " <= Front(raw);
    assert value[2..] == path && "b/" <= value;
    NoTab(path, other);
  }

  lemma {:induction false} NoTab(path: string, other: char -> bool)
    requires IsRepositoryPath(path, other)
    ensures '\t' !in path
  {
    assert IsCc('\t');
  }

  /** What printing relies on: each printed line is seen for what it is. */
  ghost predicate Faithful(view: string -> View, other: char -> bool) {
    && (forall line :: IsBodyLine(line) ==> SeesLine(view(RenderLine(line)), line))
    && (forall c :: SeesHeader(view(HeaderLine(c)), c))
    && (forall path, isNew :: IsRepositoryPath(path, other) ==>
         view(OldHeader(path, isNew)).oldHead == Some(if isNew then NewFile else OldPath(path)))
    && (forall path :: IsRepositoryPath(path, other) ==> view(NewHeader(path)).newPath == Some(path))
  }

  predicate SeesLine(view: View, line: PatchLine) { view.line == Some(line) && !Stops(view) }
  predicate SeesHeader(view: View, c: Coordinates) { view.startsHunk && view.header == Some(c) }

  lemma {:induction false} ViewerIsFaithful(other: char -> bool)
    ensures Faithful(Viewer(other), other)
  {
    var view := Viewer(other);
    forall line | IsBodyLine(line) ensures SeesLine(view(RenderLine(line)), line) {
      ViewOfLine(line, other);
    }
    forall c ensures SeesHeader(view(HeaderLine(c)), c) {
      ViewOfHeader(c, other);
    }
    forall path, isNew | IsRepositoryPath(path, other)
      ensures view(OldHeader(path, isNew)).oldHead == Some(if isNew then NewFile else OldPath(path))
    {
      NoTab(path, other);
      ViewOfOldHeader(path, isNew, other);
    }
    forall path | IsRepositoryPath(path, other) ensures view(NewHeader(path)).newPath == Some(path) {
      ViewOfNewHeader(path, other);
    }
  }

  // ----- a printed patch spells itself

  lemma {:induction false} HunkAtExtends(views: seq<View>, more: seq<View>, from: nat, hunk: PatchHunk)
    requires HunkAt(views, from, hunk)
    ensures HunkAt(views + more, from, hunk)
  {
    var all := views + more;
    forall k | 0 <= k < |hunk.lines| ensures all[from + 1 + k].line == Some(hunk.lines[k]) && !Stops(all[from + 1 + k]) {
      assert all[from + 1 + k] == views[from + 1 + k];
    }
  }

  lemma {:induction false} HunksAtExtends(views: seq<View>, more: seq<View>, from: nat, hunks: seq<PatchHunk>)
    requires HunksAt(views, from, hunks)
    ensures HunksAt(views + more, from, hunks)
  {
    if hunks != [] {
      HunksAtExtends(views, more, from, Front(hunks));
      HunkAtExtends(views, more, from + HunksSize(Front(hunks)), Last(hunks));
    }
  }

  lemma {:induction false} FilesAtExtends(views: seq<View>, more: seq<View>, files: seq<PatchFile>)
    requires FilesAt(views, 0, files)
    ensures FilesAt(views + more, 0, files)
  {
    if files != [] {
      FilesAtExtends(views, more, Front(files));
      HunksAtExtends(views, more, FilesSize(Front(files)) + 2, Last(files).hunks);
    }
  }

  lemma {:induction false} RenderedHunksSize(hunks: seq<PatchHunk>)
    ensures |RenderHunks(hunks)| == HunksSize(hunks)
  {
    if hunks != [] {
      RenderedHunksSize(Front(hunks));
    }
  }

  lemma {:induction false} ViewsConcat(a: seq<string>, b: seq<string>, view: string -> View)
    ensures Views(a + b, view) == Views(a, view) + Views(b, view)
  {
  }

  lemma {:induction false} BodyShifts(before: seq<View>, more: seq<View>, from: nat, lines: seq<PatchLine>)
    requires BodyAt(more, from, lines)
    ensures BodyAt(before + more, |before| + from, lines)
  {
    var views, start := before + more, |before| + from;
    forall k | 0 <= k < |lines| ensures views[start + k].line == Some(lines[k]) && !Stops(views[start + k]) {
      assert views[start + k] == more[from + k];
    }
  }

  lemma {:induction false} HunkAtShifts(before: seq<View>, more: seq<View>, hunk: PatchHunk)
    requires HunkAt(more, 0, hunk) && |more| == HunkSize(hunk)
    ensures HunkAt(before + more, |before|, hunk)
  {
    assert (before + more)[|before|] == more[0];
    BodyShifts(before, more, 1, hunk.lines);
  }

  lemma {:induction false} AppendHunk(views: seq<View>, more: seq<View>, from: nat, hunks: seq<PatchHunk>, hunk: PatchHunk)
    requires HunksAt(views, from, hunks) && |views| == from + HunksSize(hunks)
    requires HunkAt(more, 0, hunk) && |more| == HunkSize(hunk)
    ensures HunksAt(views + more, from, hunks + [hunk])
  {
    HunksAtExtends(views, more, from, hunks);
    HunkAtShifts(views, more, hunk);
    assert Front(hunks + [hunk]) == hunks;
  }

  lemma {:induction false} RenderedHunkAt(hunk: PatchHunk, view: string -> View, other: char -> bool)
    requires Faithful(view, other) && HunkSpellable(hunk)
    ensures HunkAt(Views(RenderHunk(hunk), view), 0, hunk) && |RenderHunk(hunk)| == HunkSize(hunk)
  {
    var raw := RenderHunk(hunk);
    assert SeesHeader(view(raw[0]), hunk.coordinates);
    forall k | 0 <= k < |hunk.lines| ensures SeesLine(Views(raw, view)[1 + k], hunk.lines[k]) {
      assert raw[1 + k] == RenderLine(hunk.lines[k]);
    }
  }

  predicate HunkSpellable(hunk: PatchHunk) {
    forall k :: 0 <= k < |hunk.lines| ==> IsBodyLine(hunk.lines[k])
  }

  predicate LinesSpellable(hunks: seq<PatchHunk>) {
    hunks == [] || (LinesSpellable(Front(hunks)) && HunkSpellable(Last(hunks)))
  }

  lemma {:induction false} OneMoreHunk(before: seq<View>, first: seq<View>, last: seq<View>, front: seq<PatchHunk>, hunk: PatchHunk)
    requires HunksAt(before + first, |before|, front) && |first| == HunksSize(front)
    requires HunkAt(last, 0, hunk) && |last| == HunkSize(hunk)
    ensures HunksAt(before + (first + last), |before|, front + [hunk])
  {
    AppendHunk(before + first, last, |before|, front, hunk);
    assert before + first + last == before + (first + last);
  }

  lemma {:induction false} RenderedConcat(hunks: seq<PatchHunk>, view: string -> View)
    requires hunks != []
    ensures
      var front, hunk := Front(hunks), Last(hunks);
      && Views(RenderHunks(hunks), view) == Views(RenderHunks(front), view) + Views(RenderHunk(hunk), view)
      && |Views(RenderHunks(front), view)| == HunksSize(front) && hunks == front + [hunk]
  {
    var front, hunk := Front(hunks), Last(hunks);
    assert hunks == front + [hunk];
    assert RenderHunks(hunks) == RenderHunks(front) + RenderHunk(hunk);
    ViewsConcat(RenderHunks(front), RenderHunk(hunk), view);
    RenderedHunksSize(front);
  }

  lemma {:induction false} RenderedHunksAt(before: seq<View>, hunks: seq<PatchHunk>, view: string -> View, other: char -> bool)
    requires Faithful(view, other) && LinesSpellable(hunks)
    ensures HunksAt(before + Views(RenderHunks(hunks), view), |before|, hunks)
  {
    if hunks != [] {
      var front, hunk := Front(hunks), Last(hunks);
      RenderedHunksAt(before, front, view, other);
      RenderedHunkAt(hunk, view, other);
      RenderedConcat(hunks, view);
      OneMoreHunk(before, Views(RenderHunks(front), view), Views(RenderHunk(hunk), view), front, hunk);
    }
  }

  /** The lines of a file can be told apart, and its path survives a header. */
  ghost predicate FileSpellable(file: PatchFile, other: char -> bool) {
    IsRepositoryPath(file.path, other) && LinesSpellable(file.hunks)
  }

  function Heads(file: PatchFile): seq<string> { [OldHeader(file.path, file.isNew), NewHeader(file.path)] }

  lemma {:induction false} RenderedHeads(before: seq<View>, file: PatchFile, more: seq<View>, view: string -> View, other: char -> bool)
    requires Faithful(view, other) && IsRepositoryPath(file.path, other)
    ensures HeadAt(before + Views(Heads(file), view) + more, |before|) == Some(Head(file.path, file.isNew))
  {
    var heads := Views(Heads(file), view);
    var views := before + heads + more;
    assert views[|before|] == heads[0] == view(OldHeader(file.path, file.isNew));
    assert views[|before| + 1] == heads[1] == view(NewHeader(file.path));
  }

  lemma {:induction false} RenderedFileAt(before: seq<View>, file: PatchFile, view: string -> View, other: char -> bool)
    requires Faithful(view, other) && FileSpellable(file, other)
    ensures FileAt(before + Views(RenderFile(file), view), |before|, file)
    ensures |RenderFile(file)| == FileSize(file)
  {
    var heads, body := Views(Heads(file), view), Views(RenderHunks(file.hunks), view);
    RenderedHeads(before, file, body, view, other);
    RenderedHunksSize(file.hunks);
    RenderedHunksAt(before + heads, file.hunks, view, other);
    ViewsConcat(Heads(file), RenderHunks(file.hunks), view);
    assert before + heads + body == before + Views(RenderFile(file), view);
  }

  lemma {:induction false} RenderedFilesAt(files: seq<PatchFile>, view: string -> View, other: char -> bool)
    requires Faithful(view, other) && forall i :: 0 <= i < |files| ==> FileSpellable(files[i], other)
    ensures FilesAt(Views(RenderFiles(files), view), 0, files)
    ensures |RenderFiles(files)| == FilesSize(files)
  {
    if files != [] {
      var before := Views(RenderFiles(Front(files)), view);
      RenderedFilesAt(Front(files), view, other);
      RenderedFileAt(before, Last(files), view, other);
      ViewsConcat(RenderFiles(Front(files)), RenderFile(Last(files)), view);
      FilesAtExtends(before, Views(RenderFile(Last(files)), view), Front(files));
    }
  }

  // ----- a printed patch is split into the lines it was printed from

  predicate IsSafeChar(c: char, other: char -> bool) { IsPatchChar(c, other) && !IsLineBreak(c) }

  predicate SafeText(text: string, other: char -> bool) {
    forall i :: 0 <= i < |text| ==> IsSafeChar(text[i], other)
  }

  /** Safe text and one LF. */
  predicate CleanLine(raw: string, other: char -> bool) {
    EndsWithLf(raw) && SafeText(Front(raw), other)
  }

  predicate CleanLines(raw: seq<string>, other: char -> bool) {
    forall i :: 0 <= i < |raw| ==> CleanLine(raw[i], other)
  }

  /** No character of the patch would be rejected or would split its line. */
  predicate HunksSafe(hunks: seq<PatchHunk>, other: char -> bool) {
    hunks == [] || (HunksSafe(Front(hunks), other) &&
      forall k :: 0 <= k < |Last(hunks).lines| ==> SafeText(Last(hunks).lines[k].content, other))
  }

  predicate FilesSafe(files: seq<PatchFile>, other: char -> bool) {
    forall i :: 0 <= i < |files| ==> SafeText(files[i].path, other) && HunksSafe(files[i].hunks, other)
  }

  /** ASCII text is safe: no other control class contains an ASCII character. */
  predicate AsciiIsPlain(other: char -> bool) { forall c: char :: ' ' <= c <= '~' ==> !other(c) }

  predicate PlainText(text: string) { forall i :: 0 <= i < |text| ==> ' ' <= text[i] <= '~' }

  lemma {:induction false} DecimalPlain(n: nat)
    ensures PlainText(Decimal(n))
  {
    assert forall i :: 0 <= i < |Decimal(n)| ==> IsDigit(Decimal(n)[i]);
  }

  lemma {:induction false} SidePlain(start: nat, count: nat)
    ensures PlainText(PrintSide(start, count, false))
  {
    DecimalPlain(start);
    DecimalPlain(count);
  }

  lemma {:induction false} HeaderPlain(c: Coordinates)
    ensures PlainText(PrintHeader(c, false, false))
  {
    SidePlain(c.oldStart, c.oldCount);
    SidePlain(c.newStart, c.newCount);
  }

  lemma {:induction false} PlainIsSafe(text: string, other: char -> bool)
    requires PlainText(text) && AsciiIsPlain(other)
    ensures SafeText(text, other)
  {
  }

  lemma {:induction false} HeaderLineClean(c: Coordinates, other: char -> bool)
    requires AsciiIsPlain(other)
    ensures CleanLine(HeaderLine(c), other)
  {
    HeaderPlain(c);
    PlainIsSafe(PrintHeader(c, false, false), other);
    assert Front(HeaderLine(c)) == PrintHeader(c, false, false);
  }

  lemma {:induction false} PrefixedClean(prefix: string, text: string, other: char -> bool)
    requires AsciiIsPlain(other) && PlainText(prefix) && SafeText(text, other)
    ensures CleanLine(prefix + text + "\n", other)
  {
    PlainIsSafe(prefix, other);
    assert Front(prefix + text + "\n") == prefix + text;
  }

  lemma {:induction false} LineClean(line: PatchLine, other: char -> bool)
    requires AsciiIsPlain(other) && SafeText(line.content, other)
    ensures CleanLine(RenderLine(line), other)
  {
    match line.kind
    case Context => PrefixedClean(" ", line.content, other);
    case Addition => PrefixedClean("+", line.content, other);
    case Deletion => PrefixedClean("-", line.content, other);
    case NoNewline =>
      PlainIsSafe(NO_NEWLINE_MARKER, other);
      assert Front(RenderLine(line)) == NO_NEWLINE_MARKER;
  }

  lemma {:induction false} CleanConcat(a: seq<string>, b: seq<string>, other: char -> bool)
    requires CleanLines(a, other) && CleanLines(b, other)
    ensures CleanLines(a + b, other)
  {
  }

  lemma {:induction false} HunkClean(hunk: PatchHunk, other: char -> bool)
    requires AsciiIsPlain(other) && forall k :: 0 <= k < |hunk.lines| ==> SafeText(hunk.lines[k].content, other)
    ensures CleanLines(RenderHunk(hunk), other)
  {
    HeaderLineClean(hunk.coordinates, other);
    forall k | 0 <= k < |hunk.lines| ensures CleanLine(RenderLines(hunk.lines)[k], other) {
      LineClean(hunk.lines[k], other);
    }
    CleanConcat([HeaderLine(hunk.coordinates)], RenderLines(hunk.lines), other);
  }

  lemma {:induction false} HunksClean(hunks: seq<PatchHunk>, other: char -> bool)
    requires AsciiIsPlain(other) && HunksSafe(hunks, other)
    ensures CleanLines(RenderHunks(hunks), other)
  {
    if hunks != [] {
      HunksClean(Front(hunks), other);
      HunkClean(Last(hunks), other);
      CleanConcat(RenderHunks(Front(hunks)), RenderHunk(Last(hunks)), other);
    }
  }

  lemma {:induction false} FilesClean(files: seq<PatchFile>, other: char -> bool)
    requires AsciiIsPlain(other) && FilesSafe(files, other)
    ensures CleanLines(RenderFiles(files), other)
  {
    if files != [] {
      var file := Last(files);
      assert file == files[|files| - 1];
      FilesClean(Front(files), other);
      HunksClean(file.hunks, other);
      HeadsClean(file, other);
      CleanConcat(Heads(file), RenderHunks(file.hunks), other);
      CleanConcat(RenderFiles(Front(files)), RenderFile(file), other);
    }
  }

  lemma {:induction false} HeadsClean(file: PatchFile, other: char -> bool)
    requires AsciiIsPlain(other) && SafeText(file.path, other)
    ensures CleanLines(Heads(file), other)
  {
    OldHeadClean(file.path, file.isNew, other);
    NewHeadClean(file.path, other);
    assert Heads(file) == [OldHeader(file.path, file.isNew), NewHeader(file.path)];
  }

  lemma {:induction false} OldHeadClean(path: string, isNew: bool, other: char -> bool)
    requires AsciiIsPlain(other) && SafeText(path, other)
    ensures CleanLine(OldHeader(path, isNew), other)
  {
    if isNew {
      PrefixedClean("--- /dev/null", "", other);
      assert OldHeader(path, true) == "--- /dev/null" + "" + "\n";
    } else {
      PrefixedClean("--- a/", path, other);
    }
  }

  lemma {:induction false} NewHeadClean(path: string, other: char -> bool)
    requires AsciiIsPlain(other) && SafeText(path, other)
    ensures CleanLine(NewHeader(path), other)
  {
    PrefixedClean("+++ b/", path, other);
  }

  /** Clean lines, joined, split back into themselves and pass the text checks. */
  lemma {:induction false} CleanLinesSplit(raw: seq<string>, other: char -> bool)
    requires CleanLines(raw, other) && raw != []
    ensures PatchLines(Flatten(raw)) == raw
    ensures TextOk(Flatten(raw), other)
  {
    forall i | 0 <= i < |raw| ensures IsLine(raw[i], IsLineBreak) && IsLineBreak(Last(raw[i])) {
      assert CleanLine(raw[i], other);
      assert forall k :: 0 <= k < |raw[i]| - 1 ==> raw[i][k] == Front(raw[i])[k];
    }
    LinesUnique(raw, IsLineBreak);
    FlattenClean(raw, other);
  }

  lemma {:induction false} FlattenClean(raw: seq<string>, other: char -> bool)
    requires CleanLines(raw, other) && raw != []
    ensures TextOk(Flatten(raw), other)
  {
    var first, rest := raw[0], raw[1..];
    assert CleanLine(first, other);
    assert first == Front(first) + "\n";
    if rest == [] {
      assert Flatten(raw) == first;
    } else {
      FlattenClean(rest, other);
    }
  }

  // ----- the main results

  lemma {:induction false} RenderedFilesParse(files: seq<PatchFile>, request: Request)
    requires FilesOk(files, request) && WithinLimits(files, request.policy)
    requires forall i :: 0 <= i < |files| ==> FileSpellable(files[i], request.otherControl)
    ensures ParseFiles(Views(RenderFiles(files), Viewer(request.otherControl)), 0, [], request) == Ok(files)
  {
    var other, raw := request.otherControl, RenderFiles(files);
    ViewerIsFaithful(other);
    RenderedFilesAt(files, Viewer(other), other);
    LexedViews(raw, other);
    FilesComplete(Views(raw, Viewer(other)), files, request);
  }

  /** Printing a well-formed patch and parsing it returns the same patch. */
  lemma {:induction false} RoundTrip(files: seq<PatchFile>, request: Request)
    requires IsCanonicalPaths(request.allowedPaths, 1, 32, request.otherControl) && AsciiIsPlain(request.otherControl)
    requires files != [] && FilesOk(files, request) && WithinLimits(files, request.policy)
    requires forall i :: 0 <= i < |files| ==> FileSpellable(files[i], request.otherControl)
    requires FilesSafe(files, request.otherControl)
    requires Utf8Length(PrintPatch(files)) <= request.policy.maxPatchBytes
    ensures ParseWirePatch(PrintPatch(files), request) == Ok(ParsedPatch(PrintPatch(files), files, ChangedInFiles(files)))
  {
    FilesClean(files, request.otherControl);
    RenderedFilesParse(files, request);
    CleanLinesSplit(RenderFiles(files), request.otherControl);
  }

  /** The lines of `text` spell `files`, and nothing is left over. */
  predicate Spells(text: string, files: seq<PatchFile>, other: char -> bool) {
    var views := Views(PatchLines(text), Viewer(other));
    FilesAt(views, 0, files) && FilesSize(files) == |views|
  }

  /** A text is accepted exactly when its lines spell a well-formed patch within limits; the
      parser returns that patch, so no text spells two. */
  lemma {:induction false} AcceptsExactly(text: string, files: seq<PatchFile>, request: Request)
    ensures
      ParseWirePatch(text, request) == Ok(ParsedPatch(text, files, ChangedInFiles(files))) <==>
        && IsCanonicalPaths(request.allowedPaths, 1, 32, request.otherControl)
        && Utf8Length(text) <= request.policy.maxPatchBytes && TextOk(text, request.otherControl)
        && Spells(text, files, request.otherControl)
        && FilesOk(files, request) && WithinLimits(files, request.policy)
  {
    var views := Views(PatchLines(text), Viewer(request.otherControl));
    if ParseFiles(views, 0, [], request) == Ok(files) {
      FilesSound(views, request);
    }
    if Spells(text, files, request.otherControl) && FilesOk(files, request) && WithinLimits(files, request.policy) {
      LexedViews(PatchLines(text), request.otherControl);
      FilesComplete(views, files, request);
    }
  }

  ghost predicate ReadsHeaders(view: string -> View) {
    forall raw :: view(raw).header.Some? ==> EndsWithLf(raw) && IsSpelling(Front(raw), view(raw).header.value)
  }

  ghost predicate ReadsLines(view: string -> View) {
    forall raw :: view(raw).line.Some? && !Stops(view(raw)) ==>
      raw == RenderLine(view(raw).line.value) && IsBodyLine(view(raw).line.value)
  }

  /** The parser's view of a line leaves a body line one spelling and a header four. */
  lemma {:induction false} ViewerReads(other: char -> bool)
    ensures ReadsHeaders(Viewer(other)) && ReadsLines(Viewer(other))
  {
    var view := Viewer(other);
    forall raw | view(raw).header.Some?
      ensures EndsWithLf(raw) && IsSpelling(Front(raw), view(raw).header.value)
    {
      HeaderIsPrinted(Front(raw));
    }
    forall raw | view(raw).line.Some? && !Stops(view(raw))
      ensures raw == RenderLine(view(raw).line.value) && IsBodyLine(view(raw).line.value)
    {
      HunkLineIsRendered(raw, other);
    }
  }

  /** A header in one of its four spellings, and each body line in its only one. */
  ghost predicate IsSpelled(raw: seq<string>, from: nat, hunk: PatchHunk) {
    && from + HunkSize(hunk) <= |raw| && EndsWithLf(raw[from]) && IsSpelling(Front(raw[from]), hunk.coordinates)
    && forall k :: 0 <= k < |hunk.lines| ==> raw[from + 1 + k] == RenderLine(hunk.lines[k]) && IsBodyLine(hunk.lines[k])
  }

  lemma {:induction false} SeenIsSpelled(raw: seq<string>, from: nat, hunk: PatchHunk, view: string -> View)
    requires HunkAt(Views(raw, view), from, hunk) && ReadsHeaders(view) && ReadsLines(view)
    ensures IsSpelled(raw, from, hunk)
  {
    assert Views(raw, view)[from] == view(raw[from]);
    forall k | 0 <= k < |hunk.lines|
      ensures raw[from + 1 + k] == RenderLine(hunk.lines[k]) && IsBodyLine(hunk.lines[k])
    {
      assert Views(raw, view)[from + 1 + k] == view(raw[from + 1 + k]);
    }
  }

  lemma {:induction false} FindHunk(views: seq<View>, from: nat, hunks: seq<PatchHunk>, j: nat) returns (at: nat)
    requires HunksAt(views, from, hunks) && j < |hunks|
    ensures HunkAt(views, at, hunks[j])
    decreases |hunks|
  {
    if j == |hunks| - 1 {
      at := from + HunksSize(Front(hunks));
    } else {
      at := FindHunk(views, from, Front(hunks), j);
    }
  }

  lemma {:induction false} FindHunkOfFile(views: seq<View>, files: seq<PatchFile>, i: nat, j: nat) returns (at: nat)
    requires FilesAt(views, 0, files) && i < |files| && j < |files[i].hunks|
    ensures HunkAt(views, at, files[i].hunks[j])
    decreases |files|
  {
    if i == |files| - 1 {
      at := FindHunk(views, FilesSize(Front(files)) + 2, files[i].hunks, j);
    } else {
      at := FindHunkOfFile(views, Front(files), i, j);
    }
  }

  /** Every hunk of an accepted text stands in it: its header in one of its four spellings, each body
      line in its only one, and no deletion that could be taken for a header. */
  lemma {:induction false} HunkSpelling(text: string, request: Request, i: nat, j: nat) returns (at: nat)
    requires ParseWirePatch(text, request).Ok?
    requires
      var files := ParseWirePatch(text, request).value.files;
      i < |files| && j < |files[i].hunks|
    ensures IsSpelled(PatchLines(text), at, ParseWirePatch(text, request).value.files[i].hunks[j])
  {
    var files, view := ParseWirePatch(text, request).value.files, Viewer(request.otherControl);
    AcceptsExactly(text, files, request);
    at := FindHunkOfFile(Views(PatchLines(text), view), files, i, j);
    ViewerReads(request.otherControl);
    SeenIsSpelled(PatchLines(text), at, files[i].hunks[j], view);
  }

  /** A line seen as half of a file header is printed as that half. */
  ghost predicate ReadsHeads(view: string -> View, other: char -> bool) {
    && (forall raw :: view(raw).oldHead.Some? ==>
          raw == match view(raw).oldHead.value case NewFile => OldHeader("", true) case OldPath(path) => OldHeader(path, false))
    && (forall raw :: view(raw).newPath.Some? ==> raw == NewHeader(view(raw).newPath.value) && IsRepositoryPath(view(raw).newPath.value, other))
  }

  lemma {:induction false} OldHeadIsRendered(raw: string, other: char -> bool)
    requires ViewOf(raw, other).oldHead.Some?
    ensures raw == match ViewOf(raw, other).oldHead.value case NewFile => OldHeader("", true) case OldPath(path) => OldHeader(path, false)
  {
    var value := Front(raw)[4..];
    assert raw == "--- " + value + "\n";
    if value != "/dev/null" {
      assert value == "a/" + value[2..];
    }
  }

  lemma {:induction false} NewHeadIsRendered(raw: string, other: char -> bool)
    requires ViewOf(raw, other).newPath.Some?
    ensures raw == NewHeader(ViewOf(raw, other).newPath.value) && IsRepositoryPath(ViewOf(raw, other).newPath.value, other)
  {
    var value := Front(raw)[4..];
    assert raw == "+++ " + value + "\n";
    assert value == "b/" + value[2..];
  }

  lemma {:induction false} ViewerReadsHeads(other: char -> bool)
    ensures ReadsHeads(Viewer(other), other)
  {
    forall raw | ViewOf(raw, other).oldHead.Some?
      ensures raw == match ViewOf(raw, other).oldHead.value case NewFile => OldHeader("", true) case OldPath(path) => OldHeader(path, false)
    {
      OldHeadIsRendered(raw, other);
    }
    forall raw | ViewOf(raw, other).newPath.Some?
      ensures raw == NewHeader(ViewOf(raw, other).newPath.value) && IsRepositoryPath(ViewOf(raw, other).newPath.value, other)
    {
      NewHeadIsRendered(raw, other);
    }
  }

  lemma {:induction false} FindFile(views: seq<View>, files: seq<PatchFile>, i: nat) returns (at: nat)
    requires FilesAt(views, 0, files) && i < |files|
    ensures FileAt(views, at, files[i]) && at == FilesSize(files[..i])
    decreases |files|
  {
    if i == |files| - 1 {
      at := FilesSize(Front(files));
    } else {
      at := FindFile(views, Front(files), i);
      assert Front(files)[..i] == files[..i];
    }
  }

  lemma {:induction false} SeenHeads(raw: seq<string>, at: nat, file: PatchFile, view: string -> View, other: char -> bool)
    requires FileAt(Views(raw, view), at, file) && ReadsHeads(view, other)
    ensures at + 2 <= |raw| && raw[at] == OldHeader(file.path, file.isNew) && raw[at + 1] == NewHeader(file.path)
    ensures IsRepositoryPath(file.path, other)
  {
    assert Views(raw, view)[at] == view(raw[at]) && Views(raw, view)[at + 1] == view(raw[at + 1]);
  }

  /** The two header lines of every accepted file stand where the files before it end, printed exactly for
      its path, which is a repository path. */
  lemma {:induction false} HeadSpelling(text: string, request: Request, i: nat) returns (at: nat)
    requires ParseWirePatch(text, request).Ok? && i < |ParseWirePatch(text, request).value.files|
    ensures
      var files := ParseWirePatch(text, request).value.files;
      && at == FilesSize(files[..i]) && at + 2 <= |PatchLines(text)|
      && PatchLines(text)[at] == OldHeader(files[i].path, files[i].isNew) && PatchLines(text)[at + 1] == NewHeader(files[i].path)
      && IsRepositoryPath(files[i].path, request.otherControl)
  {
    var files, view := ParseWirePatch(text, request).value.files, Viewer(request.otherControl);
    AcceptsExactly(text, files, request);
    at := FindFile(Views(PatchLines(text), view), files, i);
    ViewerReadsHeads(request.otherControl);
    SeenHeads(PatchLines(text), at, files[i], view, request.otherControl);
  }

  /** Accepted hunks of one file are disjoint and in order on both sides. */
  lemma {:induction false} HunksAdvance(hunks: seq<PatchHunk>, isNew: bool, i: nat, j: nat)
    requires HunksOk(hunks, isNew) && i < j < |hunks|
    ensures Advances(hunks[i], hunks[j])
    ensures CountsOk(hunks[i], isNew) && CountsOk(hunks[j], isNew)
    decreases |hunks|
  {
    var front := Front(hunks);
    if j < |front| {
      HunksAdvance(front, isNew, i, j);
    } else if i < j - 1 {
      HunksAdvance(front, isNew, i, j - 1);
    }
  }

  /** The files of an accepted patch are in strictly ascending path order, any two of them. */
  lemma {:induction false} FilesAscend(files: seq<PatchFile>, request: Request, i: nat, j: nat)
    requires FilesOk(files, request) && i < j < |files|
    ensures PathLess(files[i].path, files[j].path)
    decreases |files|
  {
    var front := Front(files);
    if j < |front| {
      FilesAscend(front, request, i, j);
    } else if i < j - 1 {
      FilesAscend(front, request, i, j - 1);
      PathLessTransitive(files[i].path, files[j - 1].path, files[j].path);
    }
  }
}

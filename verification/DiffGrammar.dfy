/** The canonical Git diffs themselves: files with their headers, hunks with their content lines, and
    the lines that spell them. The redactor accepts exactly the diffs that have this shape, delete
    every protected line and keep none as context. */
module DiffGrammar {
  import opened LineSplitting
  import opened HunkHeaders
  import opened RepositoryPaths
  import opened GitDiffHeaders
  import opened DiffRedaction

  /** A hunk with its header line and the lines that follow it, markers included. */
  datatype DiffHunk = DiffHunk(header: string, c: Coordinates, body: seq<string>)

  /** The header lines of a file, and the path they name. */
  datatype Heads = Heads(git: string, isNew: bool, index: string, oldHeader: string, newHeader: string, path: string)

  datatype DiffFile = DiffFile(heads: Heads, hunks: seq<DiffHunk>)

  /** What is read from single lines. */
  datatype Lexer = Lexer(
    isFileLine: string -> bool,
    isIndex: string -> bool,
    path: (string, string) -> Option<string>,
    isGitLine: (string, string) -> bool,
    start: string -> Option<Coordinates>)

  function GitLexer(other: char -> bool): Lexer {
    Lexer(line => GIT_PREFIX <= line, line => IsIndexLine(line), (oldHeader, newHeader) => FilePath(oldHeader, newHeader, other),
          (line, path) => IsGitLineOf(line, path), line => HunkStart(line))
  }

  // ----- the lines of a diff

  function SpellHunks(hunks: seq<DiffHunk>): seq<string> {
    if hunks == [] then [] else SpellHunks(Front(hunks)) + [Last(hunks).header] + Last(hunks).body
  }

  function GitLines(git: string, isNew: bool): seq<string> { [git] + if isNew then [NEW_MODE] else [] }

  function SpellHeads(heads: Heads): seq<string> {
    GitLines(heads.git, heads.isNew) + [heads.index] + [heads.oldHeader] + [heads.newHeader]
  }

  function SpellFile(file: DiffFile): seq<string> {
    SpellHeads(file.heads) + SpellHunks(file.hunks)
  }

  function SpellFiles(files: seq<DiffFile>): seq<string> {
    if files == [] then [] else SpellFiles(Front(files)) + SpellFile(Last(files))
  }

  // ----- hunks

  predicate IsContent(line: string) { line != [] && line[0] in [' ', '-', '+'] }

  function OldLines(body: seq<string>): nat {
    if body == [] then 0 else OldLines(Front(body)) + if Last(body) != [] && Last(body)[0] in [' ', '-'] then 1 else 0
  }

  function NewLines(body: seq<string>): nat {
    if body == [] then 0 else NewLines(Front(body)) + if Last(body) != [] && Last(body)[0] in [' ', '+'] then 1 else 0
  }

  /** The last line is a content line, so that a marker may follow. */
  predicate MayMark(body: seq<string>) { body != [] && Last(body) != MARKER }

  /** Content lines, each with at most one marker after it. */
  predicate BodyOk(body: seq<string>) {
    body == [] || (BodyOk(Front(body)) && if Last(body) == MARKER then MayMark(Front(body)) else IsContent(Last(body)))
  }

  /** The body so far is within the counts of the header. */
  predicate BodyFits(hunk: DiffHunk) {
    BodyOk(hunk.body) && OldLines(hunk.body) <= hunk.c.oldCount && NewLines(hunk.body) <= hunk.c.newCount
  }

  predicate Complete(hunk: DiffHunk) { OldLines(hunk.body) == hunk.c.oldCount && NewLines(hunk.body) == hunk.c.newCount }

  predicate HeaderOk(hunk: DiffHunk, lexer: Lexer) { "@@ " <= hunk.header && lexer.start(hunk.header) == Some(hunk.c) }

  predicate HunksOk(hunks: seq<DiffHunk>, lexer: Lexer) {
    hunks != [] ==>
      && HunksOk(Front(hunks), lexer)
      && HeaderOk(Last(hunks), lexer) && BodyFits(Last(hunks)) && Complete(Last(hunks))
  }

  /** The last hunk may be incomplete. */
  predicate PartsOk(hunks: seq<DiffHunk>, lexer: Lexer) {
    hunks != [] ==> HunksOk(Front(hunks), lexer) && HeaderOk(Last(hunks), lexer) && BodyFits(Last(hunks))
  }

  // ----- files

  /** The headers of a file that comes after the path `before`. */
  predicate HeadsOk(heads: Heads, before: Option<string>, lexer: Lexer) {
    && lexer.isFileLine(heads.git) && lexer.isIndex(heads.index)
    && lexer.path(heads.oldHeader, heads.newHeader) == Some(heads.path) && lexer.isGitLine(heads.git, heads.path)
    && (before.Some? ==> PathLess(before.value, heads.path))
  }

  function LastPath(files: seq<DiffFile>): Option<string> { if files == [] then None else Some(Last(files).heads.path) }

  predicate FilesOk(files: seq<DiffFile>, lexer: Lexer) {
    files != [] ==>
      && FilesOk(Front(files), lexer) && HeadsOk(Last(files).heads, LastPath(Front(files)), lexer)
      && Last(files).hunks != [] && HunksOk(Last(files).hunks, lexer)
  }

  predicate IsCanonical(files: seq<DiffFile>, other: char -> bool) { files != [] && FilesOk(files, GitLexer(other)) }

  // ----- the old lines a diff touches

  predicate LineTouches(line: string, at: nat, sign: char, n: nat) { line != [] && line[0] == sign && n == at }

  /** A line with this sign stands at old line `n`, the body starting at old line `start`. */
  predicate BodyTouches(body: seq<string>, start: nat, sign: char, n: nat) {
    body != [] && (BodyTouches(Front(body), start, sign, n) || LineTouches(Last(body), start + OldLines(Front(body)), sign, n))
  }

  predicate HunksTouch(hunks: seq<DiffHunk>, sign: char, n: nat) {
    hunks != [] && (HunksTouch(Front(hunks), sign, n) || BodyTouches(Last(hunks).body, Last(hunks).c.oldStart, sign, n))
  }

  predicate FilesTouch(files: seq<DiffFile>, sign: char, path: string, n: nat) {
    files != [] && (FilesTouch(Front(files), sign, path, n) || (Last(files).heads.path == path && HunksTouch(Last(files).hunks, sign, n)))
  }

  /** Every protected line is deleted and none is context. */
  ghost predicate DeletesProtected(files: seq<DiffFile>, protection: Protection) {
    forall path, n: nat :: IsProtected(protection, path, n) ==> FilesTouch(files, '-', path, n) && !FilesTouch(files, ' ', path, n)
  }

  // ----- a diff read in part

  datatype Draft =
    | NoFile
    | GitLine(git: string)
    | Mode(git: string)
    | Index(git: string, isNew: bool, index: string)
    | OldLine(git: string, isNew: bool, index: string, oldHeader: string)
    | Hunks(file: DiffFile)

  /** The files that are complete, and the one being read. */
  datatype Reading = Reading(files: seq<DiffFile>, draft: Draft)

  function SpellDraft(draft: Draft): seq<string> {
    match draft
    case NoFile => []
    case GitLine(git) => GitLines(git, false)
    case Mode(git) => GitLines(git, true)
    case Index(git, isNew, index) => GitLines(git, isNew) + [index]
    case OldLine(git, isNew, index, oldHeader) => GitLines(git, isNew) + [index] + [oldHeader]
    case Hunks(file) => SpellFile(file)
  }

  function Spell(r: Reading): seq<string> { SpellFiles(r.files) + SpellDraft(r.draft) }

  predicate DraftOk(draft: Draft, before: Option<string>, lexer: Lexer) {
    match draft
    case NoFile => true
    case GitLine(git) => lexer.isFileLine(git)
    case Mode(git) => lexer.isFileLine(git)
    case Index(git, _, index) => lexer.isFileLine(git) && lexer.isIndex(index)
    case OldLine(git, _, index, _) => lexer.isFileLine(git) && lexer.isIndex(index)
    case Hunks(file) => HeadsOk(file.heads, before, lexer) && PartsOk(file.hunks, lexer)
  }

  predicate ReadingOk(r: Reading, lexer: Lexer) { FilesOk(r.files, lexer) && DraftOk(r.draft, LastPath(r.files), lexer) }

  predicate Touches(r: Reading, sign: char, path: string, n: nat) {
    FilesTouch(r.files, sign, path, n) || (r.draft.Hunks? && r.draft.file.heads.path == path && HunksTouch(r.draft.file.hunks, sign, n))
  }

  ghost predicate KeepsNone(r: Reading, protection: Protection) {
    forall path, n: nat :: Touches(r, ' ', path, n) ==> !IsProtected(protection, path, n)
  }

  // ----- one more line

  function WithLine(hunk: DiffHunk, line: string): DiffHunk { hunk.(body := hunk.body + [line]) }

  function Longer(hunks: seq<DiffHunk>, line: string): seq<DiffHunk>
    requires hunks != []
  {
    Front(hunks) + [WithLine(Last(hunks), line)]
  }

  function StartedHunk(line: string, lexer: Lexer): DiffHunk {
    DiffHunk(line, if lexer.start(line).Some? then lexer.start(line).value else Coordinates(0, 0, 0, 0), [])
  }

  function StartedFile(git: string, isNew: bool, index: string, oldHeader: string, line: string, lexer: Lexer): DiffFile {
    var path := lexer.path(oldHeader, line);
    DiffFile(Heads(git, isNew, index, oldHeader, line, if path.Some? then path.value else ""), [])
  }

  /** The line belongs to the last hunk. */
  predicate GoesOn(file: DiffFile, line: string) { file.hunks != [] && (!Complete(Last(file.hunks)) || line == MARKER) }

  function ReadInFile(r: Reading, line: string, lexer: Lexer): Reading
    requires r.draft.Hunks?
  {
    var file := r.draft.file;
    if GoesOn(file, line) then r.(draft := Hunks(file.(hunks := Longer(file.hunks, line))))
    else if "@@ " <= line then r.(draft := Hunks(file.(hunks := file.hunks + [StartedHunk(line, lexer)])))
    else Reading(r.files + [file], GitLine(line))
  }

  function Read(r: Reading, line: string, lexer: Lexer): Reading {
    match r.draft
    case NoFile => r.(draft := GitLine(line))
    case GitLine(git) => r.(draft := if line == NEW_MODE then Mode(git) else Index(git, false, line))
    case Mode(git) => r.(draft := Index(git, true, line))
    case Index(git, isNew, index) => r.(draft := OldLine(git, isNew, index, line))
    case OldLine(git, isNew, index, oldHeader) => r.(draft := Hunks(StartedFile(git, isNew, index, oldHeader, line, lexer)))
    case Hunks(_) => ReadInFile(r, line, lexer)
  }

  const NOTHING := Reading([], NoFile)

  function Reader(lexer: Lexer): (Reading, string) -> Reading { (r, line) => Read(r, line, lexer) }

  /** The reading of some lines. */
  function ReadingOf(lines: seq<string>, read: (Reading, string) -> Reading): Reading {
    if lines == [] then NOTHING else read(ReadingOf(Front(lines), read), Last(lines))
  }

  // ----- the lines read are the lines spelled

  lemma {:induction false} LastLonger(hunks: seq<DiffHunk>, line: string)
    requires hunks != []
    ensures
      var more := Longer(hunks, line);
      more != [] && Front(more) == Front(hunks) && Last(more) == WithLine(Last(hunks), line)
  {
  }

  lemma {:induction false} SpellLonger(hunks: seq<DiffHunk>, line: string)
    requires hunks != []
    ensures SpellHunks(Longer(hunks, line)) == SpellHunks(hunks) + [line]
  {
    LastLonger(hunks, line);
  }

  lemma {:induction false} SpellNextHunk(hunks: seq<DiffHunk>, hunk: DiffHunk)
    requires hunk.body == []
    ensures SpellHunks(hunks + [hunk]) == SpellHunks(hunks) + [hunk.header]
  {
    assert Front(hunks + [hunk]) == hunks && Last(hunks + [hunk]) == hunk;
  }

  lemma {:induction false} SpellNextFile(files: seq<DiffFile>, file: DiffFile, line: string)
    ensures Spell(Reading(files + [file], GitLine(line))) == Spell(Reading(files, Hunks(file))) + [line]
  {
    assert Front(files + [file]) == files && Last(files + [file]) == file;
    assert GitLines(line, false) == [line];
  }

  lemma {:induction false} SpellInFile(r: Reading, line: string, lexer: Lexer)
    requires r.draft.Hunks?
    ensures Spell(ReadInFile(r, line, lexer)) == Spell(r) + [line]
  {
    var file := r.draft.file;
    if GoesOn(file, line) {
      SpellLonger(file.hunks, line);
      SpellGrows(r.files, file, Longer(file.hunks, line), line);
    } else if "@@ " <= line {
      SpellNextHunk(file.hunks, StartedHunk(line, lexer));
      SpellGrows(r.files, file, file.hunks + [StartedHunk(line, lexer)], line);
    } else {
      SpellNextFile(r.files, file, line);
    }
  }

  lemma {:induction false} SpellGrows(files: seq<DiffFile>, file: DiffFile, hunks: seq<DiffHunk>, line: string)
    requires SpellHunks(hunks) == SpellHunks(file.hunks) + [line]
    ensures Spell(Reading(files, Hunks(file.(hunks := hunks)))) == Spell(Reading(files, Hunks(file))) + [line]
  {
    assert SpellFile(file.(hunks := hunks)) == SpellFile(file) + [line];
  }

  lemma {:induction false} SpellRead(r: Reading, line: string, lexer: Lexer)
    ensures Spell(Read(r, line, lexer)) == Spell(r) + [line]
  {
    if r.draft.Hunks? {
      SpellInFile(r, line, lexer);
    } else if r.draft.OldLine? {
      assert SpellHunks([]) == [];
    }
  }

  /** A reader that adds each line to what is spelled. */
  ghost predicate AddsLines(read: (Reading, string) -> Reading, spell: Reading -> seq<string>) {
    spell(NOTHING) == [] && forall r, line :: spell(read(r, line)) == spell(r) + [line]
  }

  lemma {:induction false} ReadIsSpelled(lines: seq<string>, read: (Reading, string) -> Reading, spell: Reading -> seq<string>)
    requires AddsLines(read, spell)
    ensures spell(ReadingOf(lines, read)) == lines
  {
    if lines != [] {
      var before, last := ReadingOf(Front(lines), read), Last(lines);
      ReadIsSpelled(Front(lines), read, spell);
      assert spell(read(before, last)) == spell(before) + [last];
      Rejoined(lines);
    }
  }

  lemma {:induction false} Rejoined(lines: seq<string>)
    requires lines != []
    ensures Front(lines) + [Last(lines)] == lines
  {
  }

  lemma {:induction false} SpellReading(lines: seq<string>, lexer: Lexer)
    ensures Spell(ReadingOf(lines, Reader(lexer))) == lines
  {
    forall r, line ensures Spell(Read(r, line, lexer)) == Spell(r) + [line] {
      SpellRead(r, line, lexer);
    }
    ReadIsSpelled(lines, Reader(lexer), (r: Reading) => Spell(r));
  }
}

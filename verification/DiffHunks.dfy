/** The collector's hunk parser, its printed form, and the validators of its two consumers: both check
    lines and numbers, and the repair input also wants the starts strictly ascending. */
module DiffHunks {
  import opened LineSplitting
  import opened Numerals
  import opened HunkHeaders
  import opened PrivateKeyRanges

  datatype Side = Context | Addition | Deletion

  /** One line with its number on each side it is on. */
  datatype DiffLine = DiffLine(side: Side, oldNumber: Option<nat>, newNumber: Option<nat>, content: string, endsWithLf: bool)

  datatype Hunk = Hunk(c: Coordinates, lines: seq<DiffLine>)

  const MARKER := "\\ No newline at end of file\n"

  function OldLines(lines: seq<DiffLine>): nat {
    if lines == [] then 0 else OldLines(Front(lines)) + (if Last(lines).side == Addition then 0 else 1)
  }

  function NewLines(lines: seq<DiffLine>): nat {
    if lines == [] then 0 else NewLines(Front(lines)) + (if Last(lines).side == Deletion then 0 else 1)
  }

  /** The numbers a line must have when `oldLine` and `newLine` are next. */
  predicate HasNumbers(line: DiffLine, oldLine: nat, newLine: nat) {
    && line.oldNumber == (if line.side == Addition then None else Some(oldLine))
    && line.newNumber == (if line.side == Deletion then None else Some(newLine))
  }

  /** Lines are numbered consecutively on each side from the hunk's starts. */
  predicate IsNumbered(lines: seq<DiffLine>, c: Coordinates) {
    lines == [] ||
    (IsNumbered(Front(lines), c) && HasNumbers(Last(lines), c.oldStart + OldLines(Front(lines)), c.newStart + NewLines(Front(lines))))
  }

  predicate IsSound(hunk: Hunk) {
    IsNumbered(hunk.lines, hunk.c) && OldLines(hunk.lines) == hunk.c.oldCount && NewLines(hunk.lines) == hunk.c.newCount
  }

  predicate AllSound(hunks: seq<Hunk>) { hunks == [] || (AllSound(Front(hunks)) && IsSound(Last(hunks))) }

  // ----- the parser

  /** Hunks finished, and the one being read. */
  datatype State = State(hunks: seq<Hunk>, current: Option<Hunk>)

  function Finish(state: State): Option<State> {
    if state.current.None? then Some(state)
    else
      var hunk := state.current.value;
      if OldLines(hunk.lines) != hunk.c.oldCount || NewLines(hunk.lines) != hunk.c.newCount then None
      else Some(State(state.hunks + [hunk], None))
  }

  function SideOf(raw: string): Option<Side> {
    if raw == [] then None
    else if raw[0] == ' ' then Some(Context)
    else if raw[0] == '-' then Some(Deletion)
    else if raw[0] == '+' then Some(Addition)
    else None
  }

  function ReadLine(side: Side, raw: string, oldLine: nat, newLine: nat): DiffLine
    requires raw != []
  {
    DiffLine(side, if side == Addition then None else Some(oldLine), if side == Deletion then None else Some(newLine), Content(raw[1..]), true)
  }

  function Step(state: State, raw: string, header: string -> Option<Coordinates>): Option<State> {
    match header(raw)
    case Some(c) =>
      (match Finish(state)
       case None => None
       case Some(done) => Some(State(done.hunks, Some(Hunk(c, [])))))
    case None =>
      if state.current.None? then Some(state)
      else
        var hunk := state.current.value;
        if raw == MARKER then
          if hunk.lines == [] then None
          else Some(state.(current := Some(hunk.(lines := Front(hunk.lines) + [Last(hunk.lines).(endsWithLf := false)]))))
        else if raw == [] then None
        else
          match SideOf(raw)
          case None => Finish(state)
          case Some(side) =>
            var line := ReadLine(side, raw, hunk.c.oldStart + OldLines(hunk.lines), hunk.c.newStart + NewLines(hunk.lines));
            Some(state.(current := Some(hunk.(lines := hunk.lines + [line]))))
  }

  type Reader = (State, string) -> Option<State>

  function Stepper(header: string -> Option<Coordinates>): Reader { (state, raw) => Step(state, raw, header) }

  function Run(raw: seq<string>, step: Reader): Option<State> {
    if raw == [] then Some(State([], None))
    else
      match Run(Front(raw), step)
      case None => None
      case Some(before) => step(before, Last(raw))
  }

  /** `_parse_hunks` */
  function Parse(text: string, header: string -> Option<Coordinates>): Option<seq<Hunk>> {
    match Run(LfLines(text), Stepper(header))
    case None => None
    case Some(state) =>
      match Finish(state)
      case None => None
      case Some(done) => Some(done.hunks)
  }

  predicate StateOk(state: State) {
    AllSound(state.hunks) && (state.current.Some? ==> IsNumbered(state.current.value.lines, state.current.value.c))
  }

  lemma {:induction false} FinishOk(state: State)
    requires StateOk(state) && Finish(state).Some?
    ensures StateOk(Finish(state).value) && Finish(state).value.current.None?
  {
    if state.current.Some? {
      assert Front(state.hunks + [state.current.value]) == state.hunks;
    }
  }

  lemma {:induction false} MarkedOk(lines: seq<DiffLine>, c: Coordinates)
    requires lines != [] && IsNumbered(lines, c)
    ensures IsNumbered(Front(lines) + [Last(lines).(endsWithLf := false)], c)
  {
    var last := Last(lines).(endsWithLf := false);
    assert Front(Front(lines) + [last]) == Front(lines) && Last(Front(lines) + [last]) == last;
  }

  lemma {:induction false} OneMoreLineOk(lines: seq<DiffLine>, line: DiffLine, c: Coordinates)
    requires IsNumbered(lines, c) && HasNumbers(line, c.oldStart + OldLines(lines), c.newStart + NewLines(lines))
    ensures IsNumbered(lines + [line], c)
  {
    assert Front(lines + [line]) == lines && Last(lines + [line]) == line;
  }

  lemma {:induction false} LineStepOk(state: State, raw: string, header: string -> Option<Coordinates>)
    requires StateOk(state) && state.current.Some? && header(raw).None? && raw != [] && (raw == MARKER || SideOf(raw).Some?)
    requires Step(state, raw, header).Some?
    ensures StateOk(Step(state, raw, header).value)
  {
    var lines, c := state.current.value.lines, state.current.value.c;
    if raw == MARKER {
      MarkedOk(lines, c);
    } else {
      OneMoreLineOk(lines, ReadLine(SideOf(raw).value, raw, c.oldStart + OldLines(lines), c.newStart + NewLines(lines)), c);
    }
  }

  lemma {:induction false} StepOk(state: State, raw: string, header: string -> Option<Coordinates>)
    requires StateOk(state) && Step(state, raw, header).Some?
    ensures StateOk(Step(state, raw, header).value)
  {
    if state.current.Some? && header(raw).None? && raw != [] && (raw == MARKER || SideOf(raw).Some?) {
      LineStepOk(state, raw, header);
    } else if Finish(state).Some? {
      FinishOk(state);
    }
  }

  lemma {:induction false} RunOk(raw: seq<string>, header: string -> Option<Coordinates>)
    requires Run(raw, Stepper(header)).Some?
    ensures StateOk(Run(raw, Stepper(header)).value)
  {
    if raw != [] {
      RunOk(Front(raw), header);
      StepOk(Run(Front(raw), Stepper(header)).value, Last(raw), header);
    }
  }

  /** Every parsed hunk is numbered consecutively, and its counts are those of its header. */
  lemma {:induction false} ParsedIsSound(text: string, header: string -> Option<Coordinates>)
    requires Parse(text, header).Some?
    ensures AllSound(Parse(text, header).value)
  {
    RunOk(LfLines(text), header);
    FinishOk(Run(LfLines(text), Stepper(header)).value);
  }

  // ----- printing

  function Sign(side: Side): char { match side case Context => ' ' case Addition => '+' case Deletion => '-' }

  function FirstLine(line: DiffLine): string { [Sign(line.side)] + line.content + "\n" }

  function HeaderText(c: Coordinates): string { PrintHeader(c, false, false) + "\n" }

  function PrintLine(line: DiffLine): seq<string> {
    [FirstLine(line)] + if line.endsWithLf then [] else [MARKER]
  }

  function PrintLines(lines: seq<DiffLine>): seq<string> {
    if lines == [] then [] else PrintLines(Front(lines)) + PrintLine(Last(lines))
  }

  function PrintHunkLines(hunks: seq<Hunk>): seq<string> {
    if hunks == [] then []
    else PrintHunkLines(Front(hunks)) + ([HeaderText(Last(hunks).c)] + PrintLines(Last(hunks).lines))
  }

  function Print(hunks: seq<Hunk>): string { Flatten(PrintHunkLines(hunks)) }

  /** What is asked of the header pattern: it reads printed headers, and no line of a hunk body. */
  ghost predicate ReadsHeaders(header: string -> Option<Coordinates>) {
    && (forall c :: header(HeaderText(c)) == Some(c))
    && (forall raw :: raw != [] && raw[0] in [' ', '+', '-', '\\'] ==> header(raw).None?)
  }

  function CanonicalHeader(raw: string): Option<Coordinates> {
    if raw != [] && Last(raw) == '\n' then ParseHunkHeader(Front(raw)) else None
  }

  /** The canonical header pattern is such a reader. */
  lemma {:induction false} CanonicalReads()
    ensures ReadsHeaders(CanonicalHeader)
  {
    forall c ensures CanonicalHeader(HeaderText(c)) == Some(c) {
      ParsePrintedHeader(c, false, false);
      assert Front(HeaderText(c)) == PrintHeader(c, false, false);
    }
    forall raw | raw != [] && raw[0] in [' ', '+', '-', '\\'] ensures CanonicalHeader(raw).None? {
      if CanonicalHeader(raw).Some? {
        StartsWithAt(raw);
      }
    }
  }

  lemma {:induction false} StartsWithAt(raw: string)
    requires CanonicalHeader(raw).Some?
    ensures raw[0] == '@'
  {
    HeaderIsPrinted(Front(raw));
    assert "@@ "[0] == '@' && Front(raw)[0] == "@@ "[0];
  }

  /** How a parser must read printed lines, one by one. */
  ghost predicate Prints(step: Reader) {
    && (forall state, c :: step(state, HeaderText(c)) ==
         match Finish(state) case None => None case Some(done) => Some(State(done.hunks, Some(Hunk(c, [])))))
    && (forall hunks, c: Coordinates, lines, line :: HasNumbers(line, c.oldStart + OldLines(lines), c.newStart + NewLines(lines)) ==>
         step(State(hunks, Some(Hunk(c, lines))), FirstLine(line)) == Some(State(hunks, Some(Hunk(c, lines + [line.(endsWithLf := true)])))))
    && (forall hunks, c, lines, line ::
         step(State(hunks, Some(Hunk(c, lines + [line]))), MARKER) == Some(State(hunks, Some(Hunk(c, lines + [line.(endsWithLf := false)])))))
  }

  lemma {:induction false} StepPrints(header: string -> Option<Coordinates>)
    requires ReadsHeaders(header)
    ensures Prints(Stepper(header))
  {
    StepLines(header);
    assert MARKER[0] == '\\';
    forall hunks, c, lines, line
      ensures Stepper(header)(State(hunks, Some(Hunk(c, lines + [line]))), MARKER)
        == Some(State(hunks, Some(Hunk(c, lines + [line.(endsWithLf := false)]))))
    {
      StepMarker(hunks, c, lines, line, MARKER, header);
    }
  }

  lemma {:induction false} StepLines(header: string -> Option<Coordinates>)
    requires ReadsHeaders(header)
    ensures forall hunks, c: Coordinates, lines, line :: HasNumbers(line, c.oldStart + OldLines(lines), c.newStart + NewLines(lines)) ==>
      Stepper(header)(State(hunks, Some(Hunk(c, lines))), FirstLine(line))
        == Some(State(hunks, Some(Hunk(c, lines + [line.(endsWithLf := true)]))))
  {
    forall hunks, c: Coordinates, lines, line | HasNumbers(line, c.oldStart + OldLines(lines), c.newStart + NewLines(lines))
      ensures Step(State(hunks, Some(Hunk(c, lines))), FirstLine(line), header)
        == Some(State(hunks, Some(Hunk(c, lines + [line.(endsWithLf := true)]))))
    {
      StepFirst(State(hunks, Some(Hunk(c, lines))), line, header);
    }
  }

  lemma {:induction false} StepMarker(hunks: seq<Hunk>, c: Coordinates, lines: seq<DiffLine>, line: DiffLine, marker: string,
      header: string -> Option<Coordinates>)
    requires header(marker).None? && marker == MARKER
    ensures Step(State(hunks, Some(Hunk(c, lines + [line]))), marker, header)
      == Some(State(hunks, Some(Hunk(c, lines + [line.(endsWithLf := false)]))))
  {
    assert Front(lines + [line]) == lines && Last(lines + [line]) == line;
  }

  lemma {:induction false} StepFirst(state: State, line: DiffLine, header: string -> Option<Coordinates>)
    requires ReadsHeaders(header) && state.current.Some?
    requires
      var hunk := state.current.value;
      HasNumbers(line, hunk.c.oldStart + OldLines(hunk.lines), hunk.c.newStart + NewLines(hunk.lines))
    ensures
      var hunk := state.current.value;
      Step(state, FirstLine(line), header) == Some(state.(current := Some(hunk.(lines := hunk.lines + [line.(endsWithLf := true)]))))
  {
    var hunk := state.current.value;
    FirstIsRead(line, hunk.c.oldStart + OldLines(hunk.lines), hunk.c.newStart + NewLines(hunk.lines));
  }

  lemma {:induction false} FirstIsRead(line: DiffLine, oldLine: nat, newLine: nat)
    requires HasNumbers(line, oldLine, newLine)
    ensures
      var first := FirstLine(line);
      && first != [] && first[0] in [' ', '-', '+'] && first != MARKER && SideOf(first) == Some(line.side)
      && ReadLine(line.side, first, oldLine, newLine) == line.(endsWithLf := true)
  {
    var first := FirstLine(line);
    assert first[0] == Sign(line.side) && MARKER[0] == '\\';
    assert first[1..] == line.content + "\n" && Front(first[1..]) == line.content;
  }

  lemma {:induction false} RunMore(raw: seq<string>, line: string, step: Reader)
    requires Run(raw, step).Some?
    ensures Run(raw + [line], step) == step(Run(raw, step).value, line)
  {
    assert Front(raw + [line]) == raw && Last(raw + [line]) == line;
  }

  lemma {:induction false} ReadPrintedLine(raw: seq<string>, hunks: seq<Hunk>, c: Coordinates, lines: seq<DiffLine>, line: DiffLine, step: Reader)
    requires Prints(step) && Run(raw, step) == Some(State(hunks, Some(Hunk(c, lines))))
    requires HasNumbers(line, c.oldStart + OldLines(lines), c.newStart + NewLines(lines))
    ensures Run(raw + PrintLine(line), step) == Some(State(hunks, Some(Hunk(c, lines + [line]))))
  {
    var first := FirstLine(line);
    RunMore(raw, first, step);
    if line.endsWithLf {
      assert raw + PrintLine(line) == raw + [first];
    } else {
      RunMore(raw + [first], MARKER, step);
      assert raw + PrintLine(line) == raw + [first] + [MARKER];
      assert line.(endsWithLf := true).(endsWithLf := false) == line;
    }
  }

  lemma {:induction false} ReadPrintedLines(raw: seq<string>, hunks: seq<Hunk>, c: Coordinates, lines: seq<DiffLine>, step: Reader)
    requires Prints(step) && Run(raw, step) == Some(State(hunks, Some(Hunk(c, [])))) && IsNumbered(lines, c)
    ensures Run(raw + PrintLines(lines), step) == Some(State(hunks, Some(Hunk(c, lines))))
  {
    if lines == [] {
      assert raw + PrintLines(lines) == raw;
    } else {
      var printed, line := PrintLines(Front(lines)), Last(lines);
      ReadPrintedLines(raw, hunks, c, Front(lines), step);
      ReadPrintedLine(raw + printed, hunks, c, Front(lines), line, step);
      assert raw + printed + PrintLine(line) == raw + (printed + PrintLine(line));
      assert Front(lines) + [line] == lines;
    }
  }

  lemma {:induction false} ReadPrintedHunk(raw: seq<string>, before: seq<Hunk>, hunk: Hunk, step: Reader)
    requires Prints(step) && IsSound(hunk)
    requires Run(raw, step).Some? && Finish(Run(raw, step).value) == Some(State(before, None))
    ensures
      var more := raw + ([HeaderText(hunk.c)] + PrintLines(hunk.lines));
      Run(more, step) == Some(State(before, Some(hunk)))
  {
    var first := HeaderText(hunk.c);
    RunMore(raw, first, step);
    ReadPrintedLines(raw + [first], before, hunk.c, hunk.lines, step);
    assert raw + [first] + PrintLines(hunk.lines) == raw + ([first] + PrintLines(hunk.lines));
  }

  lemma {:induction false} ReadPrintedHunks(hunks: seq<Hunk>, step: Reader)
    requires Prints(step) && AllSound(hunks)
    ensures Run(PrintHunkLines(hunks), step).Some? && Finish(Run(PrintHunkLines(hunks), step).value) == Some(State(hunks, None))
  {
    if hunks != [] {
      ReadPrintedHunks(Front(hunks), step);
      ReadPrintedHunk(PrintHunkLines(Front(hunks)), Front(hunks), Last(hunks), step);
      assert Front(hunks) + [Last(hunks)] == hunks;
    }
  }

  predicate OneLiners(lines: seq<DiffLine>) { forall k :: 0 <= k < |lines| ==> '\n' !in lines[k].content }

  predicate AllOneLiners(hunks: seq<Hunk>) { hunks == [] || (AllOneLiners(Front(hunks)) && OneLiners(Last(hunks).lines)) }

  predicate AreLines(raw: seq<string>) { forall k :: 0 <= k < |raw| ==> IsWholeLine(raw[k]) }

  /** Ends with LF, and has no other. */
  predicate IsWholeLine(line: string) { line != [] && Last(line) == '\n' && '\n' !in Front(line) }

  lemma {:induction false} PrintedAreLines(lines: seq<DiffLine>)
    requires OneLiners(lines)
    ensures AreLines(PrintLines(lines))
  {
    if lines != [] {
      PrintedAreLines(Front(lines));
      var line := Last(lines);
      var first := FirstLine(line);
      assert Front(first) == [Sign(line.side)] + line.content;
      assert IsWholeLine(first);
      assert MARKER == "\\ No newline at end of file" + "\n";
      assert Front(MARKER) == "\\ No newline at end of file";
      assert IsWholeLine(MARKER);
    }
  }

  lemma {:induction false} PrintedHunksAreLines(hunks: seq<Hunk>)
    requires AllOneLiners(hunks)
    ensures AreLines(PrintHunkLines(hunks))
  {
    if hunks != [] {
      PrintedHunksAreLines(Front(hunks));
      PrintedAreLines(Last(hunks).lines);
      var text := PrintHeader(Last(hunks).c, false, false);
      HeaderIsOneLine(Last(hunks).c);
      assert Front(text + "\n") == text;
      assert IsWholeLine(text + "\n");
    }
  }

  lemma {:induction false} HeaderIsOneLine(c: Coordinates)
    ensures '\n' !in PrintHeader(c, false, false)
  {
    NumeralChars(Decimal(c.oldStart), '\n');
    NumeralChars(Decimal(c.oldCount), '\n');
    NumeralChars(Decimal(c.newStart), '\n');
    NumeralChars(Decimal(c.newCount), '\n');
  }

  lemma {:induction false} WholeLinesSplit(raw: seq<string>)
    requires AreLines(raw)
    ensures LfLines(Flatten(raw)) == raw
  {
    forall k | 0 <= k < |raw| ensures IsLine(raw[k], IsNewline) && IsNewline(Last(raw[k])) {
      assert IsWholeLine(raw[k]);
      assert forall i :: 0 <= i < |raw[k]| - 1 ==> raw[k][i] == Front(raw[k])[i];
    }
    LinesUnique(raw, IsNewline);
  }

  /** Parsing undoes printing, for every list of sound hunks. */
  lemma {:induction false} PrintParse(hunks: seq<Hunk>, header: string -> Option<Coordinates>)
    requires ReadsHeaders(header) && AllSound(hunks) && AllOneLiners(hunks)
    ensures Parse(Print(hunks), header) == Some(hunks)
  {
    PrintedHunksAreLines(hunks);
    WholeLinesSplit(PrintHunkLines(hunks));
    StepPrints(header);
    ReadPrintedHunks(hunks, Stepper(header));
  }

  // ----- the parser's loop

  lemma {:induction false} RunAt(raw: seq<string>, i: nat, step: Reader)
    requires i < |raw| && Run(raw[..i], step).Some?
    ensures Run(raw[..i + 1], step) == step(Run(raw[..i], step).value, raw[i])
    ensures Run(raw[..i + 1], step).None? ==> Run(raw, step).None?
  {
    assert raw[..i + 1] == raw[..i] + [raw[i]];
    RunMore(raw[..i], raw[i], step);
    if Run(raw[..i + 1], step).None? {
      RunDead(raw, i + 1, step);
    }
  }

  lemma {:induction false} RunDead(raw: seq<string>, n: nat, step: Reader)
    requires n <= |raw| && Run(raw[..n], step).None?
    ensures Run(raw, step).None?
    decreases |raw|
  {
    if n == |raw| {
      assert raw[..n] == raw;
    } else {
      assert Front(raw)[..n] == raw[..n];
      RunDead(Front(raw), n, step);
    }
  }

  function StateOf(hunks: seq<Hunk>, c: Option<Coordinates>, lines: seq<DiffLine>): State {
    State(hunks, if c.None? then None else Some(Hunk(c.value, lines)))
  }

  /** `finish_current` */
  method FinishCurrent(hunks: seq<Hunk>, c: Option<Coordinates>, lines: seq<DiffLine>) returns (ok: bool, hunks': seq<Hunk>)
    ensures ok <==> Finish(StateOf(hunks, c, lines)).Some?
    ensures ok ==> Finish(StateOf(hunks, c, lines)) == Some(State(hunks', None))
  {
    if c.None? {
      return true, hunks;
    }
    if OldLines(lines) != c.value.oldCount || NewLines(lines) != c.value.newCount {
      return false, hunks;
    }
    return true, hunks + [Hunk(c.value, lines)];
  }

  /** The counters are one past the last number of each side. */
  predicate CountersFit(c: Option<Coordinates>, lines: seq<DiffLine>, oldLine: nat, newLine: nat) {
    c.Some? ==> oldLine == c.value.oldStart + OldLines(lines) && newLine == c.value.newStart + NewLines(lines)
  }

  lemma {:induction false} CountsMore(lines: seq<DiffLine>, line: DiffLine)
    ensures OldLines(lines + [line]) == OldLines(lines) + if line.side == Addition then 0 else 1
    ensures NewLines(lines + [line]) == NewLines(lines) + if line.side == Deletion then 0 else 1
  {
    assert Front(lines + [line]) == lines && Last(lines + [line]) == line;
  }

  /** One raw line: a header, nothing yet, a marker that rewrites the last line, a line, or the
      end of the hunk. */
  method ReadRaw(hunks: seq<Hunk>, c: Option<Coordinates>, lines: seq<DiffLine>, oldLine: nat, newLine: nat, raw: string,
      header: string -> Option<Coordinates>)
    returns (ok: bool, hunks': seq<Hunk>, c': Option<Coordinates>, lines': seq<DiffLine>, oldLine': nat, newLine': nat)
    requires CountersFit(c, lines, oldLine, newLine)
    ensures ok ==> Step(StateOf(hunks, c, lines), raw, header) == Some(StateOf(hunks', c', lines')) && CountersFit(c', lines', oldLine', newLine')
    ensures !ok ==> Step(StateOf(hunks, c, lines), raw, header).None?
  {
    ok, hunks', c', lines', oldLine', newLine' := true, hunks, c, lines, oldLine, newLine;
    if header(raw).Some? {
      ok, hunks' := FinishCurrent(hunks, c, lines);
      c', lines' := header(raw), [];
      oldLine', newLine' := c'.value.oldStart, c'.value.newStart;
      return;
    }
    if c.None? {
      return;
    }
    if raw == MARKER {
      if lines == [] {
        ok := false;
        return;
      }
      SameCounts(lines);
      lines' := Front(lines) + [Last(lines).(endsWithLf := false)];
    } else if raw == [] {
      ok := false;
    } else if SideOf(raw).Some? {
      var side := SideOf(raw).value;
      var read := ReadLine(side, raw, oldLine, newLine);
      CountsMore(lines, read);
      lines' := lines + [read];
      oldLine' := if side == Addition then oldLine else oldLine + 1;
      newLine' := if side == Deletion then newLine else newLine + 1;
    } else {
      ok, hunks' := FinishCurrent(hunks, c, lines);
      c', lines' := None, [];
    }
  }

  /** `_parse_hunks`: the last line is rewritten in place, and the counters run along. */
  method ParseHunks(text: string, header: string -> Option<Coordinates>) returns (parsed: Option<seq<Hunk>>)
    ensures parsed == Parse(text, header)
  {
    var raw := LfLines(text);
    ghost var step := Stepper(header);
    var hunks: seq<Hunk>, c: Option<Coordinates>, lines: seq<DiffLine> := [], None, [];
    var oldLine: nat, newLine: nat := 0, 0;
    var ok := true;
    for i := 0 to |raw|
      invariant Run(raw[..i], step) == Some(StateOf(hunks, c, lines)) && CountersFit(c, lines, oldLine, newLine)
    {
      RunAt(raw, i, step);
      ok, hunks, c, lines, oldLine, newLine := ReadRaw(hunks, c, lines, oldLine, newLine, raw[i], header);
      if !ok {
        return None;
      }
    }
    assert raw[..|raw|] == raw;
    ok, hunks := FinishCurrent(hunks, c, lines);
    return if ok then Some(hunks) else None;
  }

  lemma {:induction false} SameCounts(lines: seq<DiffLine>)
    requires lines != []
    ensures
      var more := Front(lines) + [Last(lines).(endsWithLf := false)];
      OldLines(more) == OldLines(lines) && NewLines(more) == NewLines(lines)
  {
    var last := Last(lines).(endsWithLf := false);
    assert Front(Front(lines) + [last]) == Front(lines) && Last(Front(lines) + [last]) == last;
  }

  // ----- the validators of the two consumers

  /** The numbers a hunk occupies on one side. */
  function Span(start: nat, count: nat): set<nat> { set n: nat | n < start + count && IsFrom(start, n) }

  predicate IsFrom(start: nat, n: nat) { start <= n }

  function OldSpans(hunks: seq<Hunk>): set<nat> {
    if hunks == [] then {} else OldSpans(Front(hunks)) + Span(Last(hunks).c.oldStart, Last(hunks).c.oldCount)
  }

  function NewSpans(hunks: seq<Hunk>): set<nat> {
    if hunks == [] then {} else NewSpans(Front(hunks)) + Span(Last(hunks).c.newStart, Last(hunks).c.newCount)
  }

  /** Sound, with real line numbers, none of them used before. */
  predicate IsFresh(hunk: Hunk, oldNumbers: set<nat>, newNumbers: set<nat>) {
    && IsSound(hunk)
    && (hunk.c.oldCount > 0 ==> hunk.c.oldStart >= 1) && (hunk.c.newCount > 0 ==> hunk.c.newStart >= 1)
    && Span(hunk.c.oldStart, hunk.c.oldCount) !! oldNumbers && Span(hunk.c.newStart, hunk.c.newCount) !! newNumbers
  }

  /** One line is not as required, or its number is zero or taken. */
  predicate LineFits(line: DiffLine, oldLine: nat, newLine: nat, oldNumbers: set<nat>, newNumbers: set<nat>) {
    && HasNumbers(line, oldLine, newLine)
    && (line.oldNumber.Some? ==> oldLine >= 1 && oldLine !in oldNumbers)
    && (line.newNumber.Some? ==> newLine >= 1 && newLine !in newNumbers)
  }

  /** The lines so far are numbered, with real and unused numbers. */
  predicate PrefixFits(lines: seq<DiffLine>, c: Coordinates, oldNumbers: set<nat>, newNumbers: set<nat>) {
    && IsNumbered(lines, c)
    && (OldLines(lines) > 0 ==> c.oldStart >= 1) && (NewLines(lines) > 0 ==> c.newStart >= 1)
    && Span(c.oldStart, OldLines(lines)) !! oldNumbers && Span(c.newStart, NewLines(lines)) !! newNumbers
  }

  lemma {:induction false} OneMoreFits(lines: seq<DiffLine>, k: nat, c: Coordinates, oldNumbers: set<nat>, newNumbers: set<nat>)
    requires k < |lines| && PrefixFits(lines[..k], c, oldNumbers, newNumbers)
    ensures
      var (oldLine, newLine) := (c.oldStart + OldLines(lines[..k]), c.newStart + NewLines(lines[..k]));
      PrefixFits(lines[..k + 1], c, oldNumbers, newNumbers) <==>
        LineFits(lines[k], oldLine, newLine, oldNumbers + Span(c.oldStart, OldLines(lines[..k])), newNumbers + Span(c.newStart, NewLines(lines[..k])))
  {
    var more := lines[..k + 1];
    assert Front(more) == lines[..k] && Last(more) == lines[k];
    var (oldLine, newLine) := (c.oldStart + OldLines(lines[..k]), c.newStart + NewLines(lines[..k]));
    assert Span(c.oldStart, OldLines(lines[..k]) + 1) == Span(c.oldStart, OldLines(lines[..k])) + {oldLine};
    assert Span(c.newStart, NewLines(lines[..k]) + 1) == Span(c.newStart, NewLines(lines[..k])) + {newLine};
  }

  lemma {:induction false} PrefixOfFitting(lines: seq<DiffLine>, k: nat, c: Coordinates, oldNumbers: set<nat>, newNumbers: set<nat>)
    requires k <= |lines| && PrefixFits(lines, c, oldNumbers, newNumbers)
    ensures PrefixFits(lines[..k], c, oldNumbers, newNumbers)
    decreases |lines|
  {
    if k == |lines| {
      assert lines[..k] == lines;
    } else {
      assert Front(lines)[..k] == lines[..k];
      PrefixOfFitting(Front(lines), k, c, oldNumbers, newNumbers);
    }
  }

  /** `_validate_context_line` */
  method ValidateLine(line: DiffLine, expectedOld: nat, expectedNew: nat, oldNumbers: set<nat>, newNumbers: set<nat>)
    returns (ok: bool, expectedOld': nat, expectedNew': nat, oldNumbers': set<nat>, newNumbers': set<nat>)
    ensures ok <==> LineFits(line, expectedOld, expectedNew, oldNumbers, newNumbers)
    ensures ok ==> expectedOld' == expectedOld + OldLines([line]) && oldNumbers' == oldNumbers + Span(expectedOld, OldLines([line]))
    ensures ok ==> expectedNew' == expectedNew + NewLines([line]) && newNumbers' == newNumbers + Span(expectedNew, NewLines([line]))
  {
    ok, expectedOld', expectedNew', oldNumbers', newNumbers' := false, expectedOld, expectedNew, oldNumbers, newNumbers;
    assert Front([line]) == [] && Last([line]) == line;
    if !HasNumbers(line, expectedOld, expectedNew) {
      return;
    }
    if line.oldNumber.Some? {
      if expectedOld < 1 || expectedOld in oldNumbers {
        return;
      }
      oldNumbers', expectedOld' := oldNumbers + {expectedOld}, expectedOld + 1;
    }
    if line.newNumber.Some? {
      if expectedNew < 1 || expectedNew in newNumbers {
        return;
      }
      newNumbers', expectedNew' := newNumbers + {expectedNew}, expectedNew + 1;
    }
    ok := true;
  }

  lemma {:induction false} SpanJoins(start: nat, a: nat, b: nat)
    ensures Span(start, a) + Span(start + a, b) == Span(start, a + b)
  {
  }

  lemma {:induction false} CountMore(lines: seq<DiffLine>, k: nat)
    requires k < |lines|
    ensures OldLines(lines[..k + 1]) == OldLines(lines[..k]) + OldLines([lines[k]])
    ensures NewLines(lines[..k + 1]) == NewLines(lines[..k]) + NewLines([lines[k]])
  {
    assert Front(lines[..k + 1]) == lines[..k] && Last(lines[..k + 1]) == lines[k];
    assert Front([lines[k]]) == [];
  }

  /** What the loop has established after `k` lines. */
  ghost predicate Checked(hunk: Hunk, k: nat, expectedOld: nat, expectedNew: nat, oldNumbers: set<nat>, newNumbers: set<nat>,
      oldBefore: set<nat>, newBefore: set<nat>)
  {
    && k <= |hunk.lines| && PrefixFits(hunk.lines[..k], hunk.c, oldBefore, newBefore)
    && expectedOld == hunk.c.oldStart + OldLines(hunk.lines[..k]) && expectedNew == hunk.c.newStart + NewLines(hunk.lines[..k])
    && oldNumbers == oldBefore + Span(hunk.c.oldStart, OldLines(hunk.lines[..k]))
    && newNumbers == newBefore + Span(hunk.c.newStart, NewLines(hunk.lines[..k]))
  }

  /** One round of the loop. */
  method ValidateNext(hunk: Hunk, k: nat, expectedOld: nat, expectedNew: nat, oldNumbers: set<nat>, newNumbers: set<nat>,
      ghost oldBefore: set<nat>, ghost newBefore: set<nat>)
    returns (ok: bool, expectedOld': nat, expectedNew': nat, oldNumbers': set<nat>, newNumbers': set<nat>)
    requires k < |hunk.lines| && Checked(hunk, k, expectedOld, expectedNew, oldNumbers, newNumbers, oldBefore, newBefore)
    ensures ok ==> Checked(hunk, k + 1, expectedOld', expectedNew', oldNumbers', newNumbers', oldBefore, newBefore)
    ensures !ok ==> !PrefixFits(hunk.lines, hunk.c, oldBefore, newBefore)
  {
    OneMoreFits(hunk.lines, k, hunk.c, oldBefore, newBefore);
    ok, expectedOld', expectedNew', oldNumbers', newNumbers' :=
      ValidateLine(hunk.lines[k], expectedOld, expectedNew, oldNumbers, newNumbers);
    if ok {
      CountMore(hunk.lines, k);
      SpanJoins(hunk.c.oldStart, OldLines(hunk.lines[..k]), OldLines([hunk.lines[k]]));
      SpanJoins(hunk.c.newStart, NewLines(hunk.lines[..k]), NewLines([hunk.lines[k]]));
    } else if PrefixFits(hunk.lines, hunk.c, oldBefore, newBefore) {
      PrefixOfFitting(hunk.lines, k + 1, hunk.c, oldBefore, newBefore);
    }
  }

  /** `_validate_context_hunk` and `_validate_hunk`: accepted exactly when the hunk is sound and its
      numbers are real and unused; they are then marked as used. */
  method ValidateHunk(hunk: Hunk, oldNumbers: set<nat>, newNumbers: set<nat>) returns (ok: bool, oldNumbers': set<nat>, newNumbers': set<nat>)
    ensures ok <==> IsFresh(hunk, oldNumbers, newNumbers)
    ensures ok ==> oldNumbers' == oldNumbers + Span(hunk.c.oldStart, hunk.c.oldCount)
    ensures ok ==> newNumbers' == newNumbers + Span(hunk.c.newStart, hunk.c.newCount)
  {
    oldNumbers', newNumbers' := oldNumbers, newNumbers;
    var expectedOld: nat, expectedNew: nat := hunk.c.oldStart, hunk.c.newStart;
    for k := 0 to |hunk.lines|
      invariant Checked(hunk, k, expectedOld, expectedNew, oldNumbers', newNumbers', oldNumbers, newNumbers)
    {
      ok, expectedOld, expectedNew, oldNumbers', newNumbers' :=
        ValidateNext(hunk, k, expectedOld, expectedNew, oldNumbers', newNumbers', oldNumbers, newNumbers);
      if !ok {
        return;
      }
    }
    assert hunk.lines[..|hunk.lines|] == hunk.lines;
    ok := expectedOld - hunk.c.oldStart == hunk.c.oldCount && expectedNew - hunk.c.newStart == hunk.c.newCount;
  }

  /** What the review agent's validator says about all hunks of a file. */
  predicate Passes(hunks: seq<Hunk>) {
    hunks == [] || (Passes(Front(hunks)) && IsFresh(Last(hunks), OldSpans(Front(hunks)), NewSpans(Front(hunks))))
  }

  /** The hunk loop of the review agent's validator: no order is asked of the hunks. */
  method ValidateHunks(hunks: seq<Hunk>) returns (ok: bool)
    ensures ok <==> Passes(hunks)
  {
    var oldNumbers: set<nat>, newNumbers: set<nat> := {}, {};
    for i := 0 to |hunks|
      invariant Passes(hunks[..i]) && oldNumbers == OldSpans(hunks[..i]) && newNumbers == NewSpans(hunks[..i])
    {
      assert Front(hunks[..i + 1]) == hunks[..i] && Last(hunks[..i + 1]) == hunks[i];
      ok, oldNumbers, newNumbers := ValidateHunk(hunks[i], oldNumbers, newNumbers);
      if !ok {
        FailsLater(hunks, i + 1);
        return false;
      }
    }
    assert hunks[..|hunks|] == hunks;
    ok := true;
  }

  lemma {:induction false} FailsLater(hunks: seq<Hunk>, n: nat)
    requires n <= |hunks| && !Passes(hunks[..n])
    ensures !Passes(hunks)
    decreases |hunks|
  {
    if n == |hunks| {
      assert hunks[..n] == hunks;
    } else {
      assert Front(hunks)[..n] == hunks[..n];
      FailsLater(Front(hunks), n);
    }
  }

  /** Hunks as Git prints them: each starts no earlier than the one before ends, on both sides,
      and at a real line where it has any. */
  predicate IsAdvancing(hunks: seq<Hunk>) {
    hunks == [] ||
    (&& IsAdvancing(Front(hunks))
     && (Last(hunks).c.oldCount > 0 ==> Last(hunks).c.oldStart >= 1) && (Last(hunks).c.newCount > 0 ==> Last(hunks).c.newStart >= 1)
     && (|hunks| > 1 ==>
          var before, c := Last(Front(hunks)).c, Last(hunks).c;
          before.oldStart + before.oldCount <= c.oldStart && before.newStart + before.newCount <= c.newStart))
  }

  lemma {:induction false} SpansEnd(hunks: seq<Hunk>)
    requires IsAdvancing(hunks) && hunks != []
    ensures forall n :: n in OldSpans(hunks) ==> n < Last(hunks).c.oldStart + Last(hunks).c.oldCount
    ensures forall n :: n in NewSpans(hunks) ==> n < Last(hunks).c.newStart + Last(hunks).c.newCount
  {
    if |hunks| > 1 {
      SpansEnd(Front(hunks));
    }
  }

  /** Advancing sound hunks pass the review agent's validator. */
  lemma {:induction false} AdvancingPasses(hunks: seq<Hunk>)
    requires AllSound(hunks) && IsAdvancing(hunks)
    ensures Passes(hunks)
  {
    if hunks != [] {
      AdvancingPasses(Front(hunks));
      if |hunks| > 1 {
        SpansEnd(Front(hunks));
      }
    }
  }

  // ----- the repair input also orders hunks by their starts

  function StartOf(hunk: Hunk): (nat, nat) { (hunk.c.oldStart, hunk.c.newStart) }

  predicate StartLess(a: (nat, nat), b: (nat, nat)) { a.0 < b.0 || (a.0 == b.0 && a.1 < b.1) }

  predicate StartsAscend(hunks: seq<Hunk>) {
    forall i, j :: 0 <= i < j < |hunks| ==> StartLess(StartOf(hunks[i]), StartOf(hunks[j]))
  }

  /** What the repair input's validator says about all hunks of a file. */
  predicate PassesInput(hunks: seq<Hunk>) { Passes(hunks) && StartsAscend(hunks) }

  predicate IsSorted(starts: seq<(nat, nat)>) {
    forall i, j :: 0 <= i < j < |starts| ==> !StartLess(starts[j], starts[i])
  }

  function Elements(starts: seq<(nat, nat)>): set<(nat, nat)> { set p | p in starts }

  predicate AllDiffer(starts: seq<(nat, nat)>) {
    forall i, j :: 0 <= i < j < |starts| ==> starts[i] != starts[j]
  }

  /** A sequence is as long as its set exactly when no element repeats. */
  lemma {:induction false} DifferBySize(starts: seq<(nat, nat)>)
    ensures |Elements(starts)| <= |starts|
    ensures |Elements(starts)| == |starts| <==> AllDiffer(starts)
  {
    if starts != [] {
      var front, last := Front(starts), Last(starts);
      DifferBySize(front);
      DifferLast(starts);
      assert Elements(starts) == Elements(front) + {last};
    }
  }

  lemma {:induction false} DifferLast(starts: seq<(nat, nat)>)
    requires starts != []
    ensures AllDiffer(starts) <==> AllDiffer(Front(starts)) && Last(starts) !in Elements(Front(starts))
  {
    var front, last := Front(starts), Last(starts);
    if AllDiffer(starts) {
      forall i, j | 0 <= i < j < |front| ensures front[i] != front[j] {
        assert starts[i] != starts[j];
      }
      forall i | 0 <= i < |front| ensures front[i] != last {
        assert starts[i] != starts[|starts| - 1];
      }
    } else {
      var i, j :| 0 <= i < j < |starts| && starts[i] == starts[j];
      assert front[i] == starts[i] && (j < |front| ==> front[j] == starts[j]);
    }
  }

  /** The hunk loop of the repair input's validator: the coordinates are collected, then compared with
      themselves sorted and with their set. */
  method ValidateInputHunks(hunks: seq<Hunk>) returns (ok: bool)
    ensures ok <==> PassesInput(hunks)
  {
    var oldNumbers: set<nat>, newNumbers: set<nat> := {}, {};
    var starts: seq<(nat, nat)> := [];
    for i := 0 to |hunks|
      invariant Passes(hunks[..i]) && oldNumbers == OldSpans(hunks[..i]) && newNumbers == NewSpans(hunks[..i])
      invariant |starts| == i && forall k :: 0 <= k < i ==> starts[k] == StartOf(hunks[k])
    {
      assert Front(hunks[..i + 1]) == hunks[..i] && Last(hunks[..i + 1]) == hunks[i];
      ok, oldNumbers, newNumbers := ValidateHunk(hunks[i], oldNumbers, newNumbers);
      if !ok {
        FailsLater(hunks, i + 1);
        return false;
      }
      starts := starts + [StartOf(hunks[i])];
    }
    assert hunks[..|hunks|] == hunks;
    ok := IsSorted(starts) && |Elements(starts)| == |starts|;
    DifferBySize(starts);
    SortedAndDifferent(hunks, starts);
  }

  lemma {:induction false} SortedAndDifferent(hunks: seq<Hunk>, starts: seq<(nat, nat)>)
    requires |starts| == |hunks| && forall k :: 0 <= k < |hunks| ==> starts[k] == StartOf(hunks[k])
    ensures IsSorted(starts) && AllDiffer(starts) <==> StartsAscend(hunks)
  {
    assert forall i, j :: 0 <= i < j < |hunks| ==>
      (StartLess(StartOf(hunks[i]), StartOf(hunks[j])) <==> !StartLess(starts[j], starts[i]) && starts[i] != starts[j]);
  }

  /** No hunk starts, on both sides, where the one before starts. */
  predicate NeverRepeats(hunks: seq<Hunk>) {
    |hunks| <= 1 || (NeverRepeats(Front(hunks)) && StartOf(Last(hunks)) != StartOf(Last(Front(hunks))))
  }

  predicate NoneEmpty(hunks: seq<Hunk>) {
    forall i :: 0 <= i < |hunks| ==> hunks[i].c.oldCount + hunks[i].c.newCount > 0
  }

  /** Hunks that advance and have lines never repeat a start. */
  lemma {:induction false} NoneEmptyNeverRepeats(hunks: seq<Hunk>)
    requires IsAdvancing(hunks) && NoneEmpty(hunks)
    ensures NeverRepeats(hunks)
  {
    if |hunks| > 1 {
      NoneEmptyNeverRepeats(Front(hunks));
      assert Last(Front(hunks)) == hunks[|hunks| - 2];
    }
  }

  lemma {:induction false} AdvancingAscends(hunks: seq<Hunk>)
    requires IsAdvancing(hunks)
    ensures StartsAscend(hunks) <==> NeverRepeats(hunks)
  {
    if |hunks| > 1 {
      var front := Front(hunks);
      AdvancingAscends(front);
      if StartsAscend(hunks) {
        forall i, j | 0 <= i < j < |front| ensures StartLess(StartOf(front[i]), StartOf(front[j])) {
          assert front[i] == hunks[i] && front[j] == hunks[j];
        }
        assert StartLess(StartOf(hunks[|hunks| - 2]), StartOf(hunks[|hunks| - 1]));
      } else if NeverRepeats(hunks) {
        AscendsMore(hunks);
      }
    }
  }

  lemma {:induction false} AscendsMore(hunks: seq<Hunk>)
    requires |hunks| > 1 && StartsAscend(Front(hunks)) && StartLess(StartOf(Last(Front(hunks))), StartOf(Last(hunks)))
    ensures StartsAscend(hunks)
  {
    var front := Front(hunks);
    forall i, j | 0 <= i < j < |hunks| ensures StartLess(StartOf(hunks[i]), StartOf(hunks[j])) {
      assert hunks[i] == front[i];
      if j < |front| {
        assert hunks[j] == front[j];
      } else if i < |front| - 1 {
        assert StartLess(StartOf(front[i]), StartOf(front[|front| - 1]));
      }
    }
  }

  /** What the parser returns, when its hunks advance, always passes the review agent's validator; it
      passes the repair input's exactly when no hunk starts where the one before starts, which holds
      whenever no hunk is empty. */
  lemma {:induction false} ParsedPasses(text: string, header: string -> Option<Coordinates>)
    requires Parse(text, header).Some? && IsAdvancing(Parse(text, header).value)
    ensures
      var hunks := Parse(text, header).value;
      && Passes(hunks) && (PassesInput(hunks) <==> NeverRepeats(hunks)) && (NoneEmpty(hunks) ==> PassesInput(hunks))
  {
    var hunks := Parse(text, header).value;
    ParsedIsSound(text, header);
    AdvancingPasses(hunks);
    AdvancingAscends(hunks);
    if NoneEmpty(hunks) {
      NoneEmptyNeverRepeats(hunks);
    }
  }

  /** Two empty hunks at one place: a text that parses, advances and passes the review agent, and that the
      repair input refuses as a duplicate. */
  lemma {:induction false} EmptyHunksRepeat(header: string -> Option<Coordinates>)
    requires ReadsHeaders(header)
    ensures
      var hunk := Hunk(Coordinates(1, 0, 1, 0), []);
      var hunks := [hunk, hunk];
      && Parse(Print(hunks), header) == Some(hunks) && IsAdvancing(hunks) && Passes(hunks) && !PassesInput(hunks)
  {
    var hunk := Hunk(Coordinates(1, 0, 1, 0), []);
    var hunks := [hunk, hunk];
    TwoHunks(hunk, hunk);
    assert !StartLess(StartOf(hunks[0]), StartOf(hunks[1]));
    assert IsSound(hunk) && AllSound([]) && AllSound([hunk]) && AllOneLiners([]) && AllOneLiners([hunk]);
    assert IsAdvancing([]) && IsAdvancing([hunk]);
    PrintParse(hunks, header);
    AdvancingPasses(hunks);
  }

  lemma {:induction false} TwoHunks(a: Hunk, b: Hunk)
    ensures Front([a, b]) == [a] && Last([a, b]) == b && Front([a]) == [] && Last([a]) == a
  {
  }

  /** The two validators differ in earnest: hunks in descending order pass one of them only. */
  lemma {:induction false} OrderMatters()
    ensures
      var a := Hunk(Coordinates(5, 1, 5, 0), [DiffLine(Deletion, Some(5), None, "", true)]);
      var b := Hunk(Coordinates(1, 1, 1, 0), [DiffLine(Deletion, Some(1), None, "", true)]);
      Passes([a, b]) && !PassesInput([a, b])
  {
    var a := Hunk(Coordinates(5, 1, 5, 0), [DiffLine(Deletion, Some(5), None, "", true)]);
    var b := Hunk(Coordinates(1, 1, 1, 0), [DiffLine(Deletion, Some(1), None, "", true)]);
    OneDeletion(a.lines[0], a.c);
    OneDeletion(b.lines[0], b.c);
    TwoHunks(a, b);
    assert Passes([]) && OldSpans([]) == {} && NewSpans([]) == {};
    assert Passes([a]) && OldSpans([a]) == Span(5, 1) && NewSpans([a]) == Span(5, 0);
    assert !StartLess(StartOf([a, b][0]), StartOf([a, b][1]));
  }

  lemma {:induction false} OneDeletion(line: DiffLine, c: Coordinates)
    requires line.side == Deletion && HasNumbers(line, c.oldStart, c.newStart) && c.oldCount == 1 && c.newCount == 0
    ensures IsSound(Hunk(c, [line]))
  {
    assert Front([line]) == [] && Last([line]) == line;
    assert OldLines([]) == 0 && NewLines([]) == 0 && IsNumbered([], c);
  }
}

/** What a patch is to the collector: lines that are skipped and hunks between them. The parser
    succeeds on exactly the texts with such a layout, and returns the hunks of it. */
module PatchLayout {
  import opened LineSplitting
  import opened HunkHeaders
  import opened PrivateKeyRanges
  import opened DiffHunks

  /** A header pattern. */
  type Pattern = string -> Option<Coordinates>

  /** The lines skipped before a hunk, its header line, and the lines of its body. */
  datatype Part = Part(gap: seq<string>, header: string, body: seq<string>)

  function SpellParts(parts: seq<Part>): seq<string> {
    if parts == [] then [] else SpellParts(Front(parts)) + Last(parts).gap + [Last(parts).header] + Last(parts).body
  }

  // ----- bodies

  predicate IsContent(raw: string) { SideOf(raw).Some? }

  /** Content lines, and markers where there is a line to mark. */
  predicate BodyOk(body: seq<string>, header: Pattern) {
    body != [] ==>
      && BodyOk(Front(body), header) && header(Last(body)).None?
      && (if Last(body) == MARKER then Front(body) != [] else IsContent(Last(body)))
  }

  function Marked(lines: seq<DiffLine>): seq<DiffLine> {
    if lines == [] then [] else Front(lines) + [Last(lines).(endsWithLf := false)]
  }

  /** The lines that a body stands for, numbered from the starts of the header. */
  function LinesOf(body: seq<string>, c: Coordinates): seq<DiffLine> {
    if body == [] then [] else LinesAfter(LinesOf(Front(body), c), Last(body), c)
  }

  /** The lines of a body with one more raw line. */
  function LinesAfter(before: seq<DiffLine>, raw: string, c: Coordinates): seq<DiffLine> {
    if raw == MARKER then Marked(before)
    else if SideOf(raw).None? then before
    else before + [ReadLine(SideOf(raw).value, raw, c.oldStart + OldLines(before), c.newStart + NewLines(before))]
  }

  // ----- parts

  function HunkOf(part: Part, header: Pattern): Hunk {
    var c := if header(part.header).Some? then header(part.header).value else Coordinates(0, 0, 0, 0);
    Hunk(c, LinesOf(part.body, c))
  }

  predicate IsFull(hunk: Hunk) { OldLines(hunk.lines) == hunk.c.oldCount && NewLines(hunk.lines) == hunk.c.newCount }

  /** A line that ends a body without being a header. */
  predicate EndsBody(raw: string) { raw != [] && raw != MARKER && SideOf(raw).None? }

  predicate NoHeaders(lines: seq<string>, header: Pattern) { forall k :: 0 <= k < |lines| ==> header(lines[k]).None? }

  /** Skipped lines are no headers, and after a hunk the first of them ends its body. */
  predicate GapOk(gap: seq<string>, first: bool, header: Pattern) {
    NoHeaders(gap, header) && (gap != [] && !first ==> EndsBody(gap[0]))
  }

  predicate PartOk(part: Part, first: bool, header: Pattern) {
    GapOk(part.gap, first, header) && header(part.header).Some? && BodyOk(part.body, header)
  }

  /** All parts are in order; the last body may still be going on. */
  predicate PartsOk(parts: seq<Part>, open: bool, header: Pattern) {
    parts != [] ==>
      && PartsOk(Front(parts), false, header) && PartOk(Last(parts), Front(parts) == [], header)
      && (open || IsFull(HunkOf(Last(parts), header)))
  }

  function HunksOf(parts: seq<Part>, header: Pattern): seq<Hunk> {
    if parts == [] then [] else HunksOf(Front(parts), header) + [HunkOf(Last(parts), header)]
  }

  /** The layout of a whole patch. */
  predicate IsLayout(parts: seq<Part>, tail: seq<string>, header: Pattern) {
    PartsOk(parts, false, header) && GapOk(tail, parts == [], header)
  }

  // ----- a patch read in part

  /** While `open`, the body of the last part goes on; else `tail` has been skipped since. */
  datatype Reading = Reading(parts: seq<Part>, tail: seq<string>, open: bool)

  const NOTHING := Reading([], [], false)

  function Spell(r: Reading): seq<string> { SpellParts(r.parts) + r.tail }

  predicate ReadingOk(r: Reading, header: Pattern) {
    && PartsOk(r.parts, r.open, header) && GapOk(r.tail, r.parts == [], header)
    && (r.open <==> r.parts != [] && r.tail == [])
  }

  function Longer(parts: seq<Part>, raw: string): seq<Part>
    requires parts != []
  {
    Front(parts) + [Last(parts).(body := Last(parts).body + [raw])]
  }

  function Read(r: Reading, raw: string, header: Pattern): Reading {
    if header(raw).Some? then Reading(r.parts + [Part(r.tail, raw, [])], [], true)
    else if !r.open || r.parts == [] then r.(tail := r.tail + [raw])
    else if EndsBody(raw) then r.(tail := r.tail + [raw], open := false)
    else r.(parts := Longer(r.parts, raw))
  }

  function Reader(header: Pattern): (Reading, string) -> Reading { (r, raw) => Read(r, raw, header) }

  function ReadingOf(lines: seq<string>, read: (Reading, string) -> Reading): Reading {
    if lines == [] then NOTHING else read(ReadingOf(Front(lines), read), Last(lines))
  }

  /** Where the parser is. */
  function StateOf(r: Reading, header: Pattern): State {
    if r.open && r.parts != [] then State(HunksOf(Front(r.parts), header), Some(HunkOf(Last(r.parts), header)))
    else State(HunksOf(r.parts, header), None)
  }

  // ----- one line

  lemma {:induction false} PartsMore(parts: seq<Part>, part: Part, open: bool, header: Pattern)
    ensures PartsOk(parts + [part], open, header) <==>
      && PartsOk(parts, false, header) && PartOk(part, parts == [], header) && (open || IsFull(HunkOf(part, header)))
    ensures HunksOf(parts + [part], header) == HunksOf(parts, header) + [HunkOf(part, header)]
    ensures SpellParts(parts + [part]) == SpellParts(parts) + part.gap + [part.header] + part.body
  {
    assert Front(parts + [part]) == parts && Last(parts + [part]) == part;
  }

  lemma {:induction false} PartsOpen(parts: seq<Part>, header: Pattern)
    requires PartsOk(parts, true, header)
    ensures PartsOk(parts, false, header) <==> parts == [] || IsFull(HunkOf(Last(parts), header))
  {
  }

  lemma {:induction false} GapMore(gap: seq<string>, raw: string, first: bool, header: Pattern)
    ensures GapOk(gap + [raw], first, header) <==> GapOk(gap, first, header) && header(raw).None? && (gap == [] && !first ==> EndsBody(raw))
  {
    var more := gap + [raw];
    assert forall k :: 0 <= k < |gap| ==> more[k] == gap[k];
    assert more[|gap|] == raw;
    if GapOk(more, first, header) {
      assert forall k :: 0 <= k < |gap| ==> gap[k] == more[k];
      assert gap != [] ==> gap[0] == more[0];
    }
  }

  lemma {:induction false} BodyMore(body: seq<string>, raw: string, header: Pattern)
    ensures BodyOk(body + [raw], header) <==>
      BodyOk(body, header) && header(raw).None? && (if raw == MARKER then body != [] else IsContent(raw))
  {
    assert Front(body + [raw]) == body && Last(body + [raw]) == raw;
  }

  lemma {:induction false} LinesMore(body: seq<string>, raw: string, c: Coordinates)
    ensures LinesOf(body + [raw], c) == LinesAfter(LinesOf(body, c), raw, c)
  {
    assert Front(body + [raw]) == body && Last(body + [raw]) == raw;
  }

  /** A body that is in order has lines exactly when it is not empty. */
  lemma {:induction false} BodyHasLines(body: seq<string>, c: Coordinates, header: Pattern)
    requires BodyOk(body, header)
    ensures LinesOf(body, c) == [] <==> body == []
  {
    if body != [] {
      BodyHasLines(Front(body), c, header);
    }
  }

  lemma {:induction false} LongerIs(parts: seq<Part>, raw: string)
    requires parts != []
    ensures
      var more := Longer(parts, raw);
      more != [] && Front(more) == Front(parts) && Last(more) == Last(parts).(body := Last(parts).body + [raw])
  {
  }

  /** How the state goes on with one line, given whether the reading does. */
  ghost predicate Agrees(next: Option<State>, r: Reading, raw: string, header: Pattern) {
    && (next.Some? <==> ReadingOk(Read(r, raw, header), header))
    && (next.Some? ==> next.value == StateOf(Read(r, raw, header), header))
  }

  lemma {:induction false} HeaderAgrees(r: Reading, raw: string, header: Pattern)
    requires ReadingOk(r, header) && header(raw).Some?
    ensures Agrees(Step(StateOf(r, header), raw, header), r, raw, header)
  {
    PartsMore(r.parts, Part(r.tail, raw, []), true, header);
    if r.open {
      PartsOpen(r.parts, header);
      assert r.parts == Front(r.parts) + [Last(r.parts)];
      PartsMore(Front(r.parts), Last(r.parts), false, header);
    }
    var parts := r.parts + [Part(r.tail, raw, [])];
    assert Front(parts) == r.parts && Last(parts) == Part(r.tail, raw, []);
    assert GapOk([], false, header);
  }

  lemma {:induction false} SkippedAgrees(r: Reading, raw: string, header: Pattern)
    requires ReadingOk(r, header) && header(raw).None? && !r.open
    ensures Agrees(Step(StateOf(r, header), raw, header), r, raw, header)
  {
    GapMore(r.tail, raw, r.parts == [], header);
  }

  lemma {:induction false} EndAgrees(r: Reading, raw: string, header: Pattern)
    requires ReadingOk(r, header) && header(raw).None? && r.open && EndsBody(raw)
    ensures Agrees(Step(StateOf(r, header), raw, header), r, raw, header)
  {
    GapMore([], raw, false, header);
    assert [] + [raw] == [raw];
    PartsOpen(r.parts, header);
    assert r.parts == Front(r.parts) + [Last(r.parts)];
    PartsMore(Front(r.parts), Last(r.parts), false, header);
  }

  lemma {:induction false} LongerOk(parts: seq<Part>, raw: string, header: Pattern)
    requires parts != []
    ensures PartsOk(Longer(parts, raw), true, header) <==>
      && PartsOk(parts, true, header) && header(raw).None? && (if raw == MARKER then Last(parts).body != [] else IsContent(raw))
    ensures HunksOf(Front(Longer(parts, raw)), header) == HunksOf(Front(parts), header)
    ensures SpellParts(Longer(parts, raw)) == SpellParts(parts) + [raw]
  {
    LongerIs(parts, raw);
    BodyMore(Last(parts).body, raw, header);
  }

  lemma {:induction false} BodyStep(hunks: seq<Hunk>, c: Coordinates, before: seq<DiffLine>, raw: string, header: Pattern)
    requires header(raw).None? && !EndsBody(raw)
    ensures Step(State(hunks, Some(Hunk(c, before))), raw, header) ==
      if (if raw == MARKER then before != [] else IsContent(raw)) then Some(State(hunks, Some(Hunk(c, LinesAfter(before, raw, c))))) else None
  {
  }

  lemma {:induction false} BodyAgrees(r: Reading, raw: string, header: Pattern)
    requires ReadingOk(r, header) && header(raw).None? && r.open && !EndsBody(raw)
    ensures Agrees(Step(StateOf(r, header), raw, header), r, raw, header)
  {
    var part := Last(r.parts);
    var c := header(part.header).value;
    LongerIs(r.parts, raw);
    LongerOk(r.parts, raw, header);
    BodyHasLines(part.body, c, header);
    LinesMore(part.body, raw, c);
    BodyStep(HunksOf(Front(r.parts), header), c, LinesOf(part.body, c), raw, header);
    assert StateOf(r, header) == State(HunksOf(Front(r.parts), header), Some(Hunk(c, LinesOf(part.body, c))));
  }

  lemma {:induction false} StepAgrees(r: Reading, raw: string, header: Pattern)
    requires ReadingOk(r, header)
    ensures Agrees(Step(StateOf(r, header), raw, header), r, raw, header)
  {
    if header(raw).Some? {
      HeaderAgrees(r, raw, header);
    } else if !r.open {
      SkippedAgrees(r, raw, header);
    } else if EndsBody(raw) {
      EndAgrees(r, raw, header);
    } else {
      BodyAgrees(r, raw, header);
    }
  }

  /** What begins a layout was the beginning of one before its last line. */
  lemma {:induction false} WasOk(r: Reading, raw: string, header: Pattern)
    requires ReadingOk(Read(r, raw, header), header) && IsReached(r)
    ensures ReadingOk(r, header)
  {
    if header(raw).Some? {
      PartsMore(r.parts, Part(r.tail, raw, []), true, header);
      OpenToo(r.parts, header);
    } else if !r.open {
      GapMore(r.tail, raw, r.parts == [], header);
    } else if EndsBody(raw) {
      OpenToo(r.parts, header);
      GapMore([], raw, false, header);
    } else {
      LongerIs(r.parts, raw);
      LongerOk(r.parts, raw, header);
    }
  }

  lemma {:induction false} OpenToo(parts: seq<Part>, header: Pattern)
    requires PartsOk(parts, false, header)
    ensures PartsOk(parts, true, header)
  {
  }

  /** A body goes on exactly while nothing has been skipped after its header. */
  predicate IsReached(r: Reading) { r.open <==> r.parts != [] && r.tail == [] }

  lemma {:induction false} ReachesMore(r: Reading, raw: string, header: Pattern)
    requires IsReached(r)
    ensures IsReached(Read(r, raw, header))
  {
  }

  /** A parser that goes on exactly as readings of a kind do. */
  ghost predicate Tracks(step: DiffHunks.Reader, read: (Reading, string) -> Reading, ok: Reading -> bool, at: Reading -> State) {
    && ok(NOTHING) && at(NOTHING) == State([], None)
    && (forall r, raw :: ok(r) ==> (step(at(r), raw).Some? <==> ok(read(r, raw))) && (ok(read(r, raw)) ==> step(at(r), raw) == Some(at(read(r, raw)))))
    && (forall r, raw :: IsReached(r) ==> IsReached(read(r, raw)) && (ok(read(r, raw)) ==> ok(r)))
  }

  lemma {:induction false} RunTracks(lines: seq<string>, step: DiffHunks.Reader, read: (Reading, string) -> Reading, ok: Reading -> bool,
      at: Reading -> State)
    requires Tracks(step, read, ok, at)
    ensures IsReached(ReadingOf(lines, read)) && (Run(lines, step).Some? <==> ok(ReadingOf(lines, read)))
    ensures Run(lines, step).Some? ==> Run(lines, step).value == at(ReadingOf(lines, read))
  {
    if lines != [] {
      RunTracks(Front(lines), step, read, ok, at);
      var r, raw := ReadingOf(Front(lines), read), Last(lines);
      assert IsReached(read(r, raw)) && (ok(read(r, raw)) ==> ok(r));
    }
  }

  /** The parser runs through exactly the lines that begin a layout. */
  lemma {:induction false} RunReads(lines: seq<string>, header: Pattern)
    ensures IsReached(ReadingOf(lines, Reader(header)))
    ensures Run(lines, Stepper(header)).Some? <==> ReadingOk(ReadingOf(lines, Reader(header)), header)
    ensures Run(lines, Stepper(header)).Some? ==> Run(lines, Stepper(header)).value == StateOf(ReadingOf(lines, Reader(header)), header)
  {
    var ok, at := (r: Reading) => ReadingOk(r, header), (r: Reading) => StateOf(r, header);
    forall r, raw | ReadingOk(r, header) ensures Agrees(Step(StateOf(r, header), raw, header), r, raw, header) {
      StepAgrees(r, raw, header);
    }
    forall r, raw | IsReached(r)
      ensures IsReached(Read(r, raw, header)) && (ReadingOk(Read(r, raw, header), header) ==> ReadingOk(r, header))
    {
      ReachesMore(r, raw, header);
      if ReadingOk(Read(r, raw, header), header) {
        WasOk(r, raw, header);
      }
    }
    RunTracks(lines, Stepper(header), Reader(header), ok, at);
  }

  // ----- the reading of what is spelled

  lemma {:induction false} SpellRead(r: Reading, raw: string, header: Pattern)
    requires IsReached(r)
    ensures Spell(Read(r, raw, header)) == Spell(r) + [raw]
  {
    if header(raw).Some? {
      PartsMore(r.parts, Part(r.tail, raw, []), true, header);
    } else if r.open && !EndsBody(raw) {
      LongerOk(r.parts, raw, header);
    }
  }

  /** The reading before its last line, and that line. */
  function Before(r: Reading): Reading {
    if r.tail != [] then Reading(r.parts, Front(r.tail), r.parts != [] && |r.tail| == 1)
    else if r.parts == [] then r
    else
      var front, part := Front(r.parts), Last(r.parts);
      if part.body == [] then Reading(front, part.gap, front != [] && part.gap == [])
      else r.(parts := front + [part.(body := Front(part.body))])
  }

  function LastLine(r: Reading): string
    requires r != NOTHING && IsReached(r)
  {
    if r.tail != [] then Last(r.tail)
    else if Last(r.parts).body == [] then Last(r.parts).header
    else Last(Last(r.parts).body)
  }

  lemma {:induction false} BeforeBody(parts: seq<Part>, header: Pattern)
    requires parts != [] && PartsOk(parts, true, header) && Last(parts).body != []
    ensures
      var before, raw := Front(parts) + [Last(parts).(body := Front(Last(parts).body))], Last(Last(parts).body);
      && before != [] && PartsOk(before, true, header) && Longer(before, raw) == parts && header(raw).None? && !EndsBody(raw)
  {
    var part := Last(parts);
    var before, raw := Front(parts) + [part.(body := Front(part.body))], Last(part.body);
    assert Front(before) == Front(parts) && Last(before) == part.(body := Front(part.body));
    Rejoined(part.body);
    assert parts == Front(parts) + [part];
  }

  lemma {:induction false} Rejoined(lines: seq<string>)
    requires lines != []
    ensures Front(lines) + [Last(lines)] == lines
  {
  }

  lemma {:induction false} BeforeTail(r: Reading, header: Pattern)
    requires ReadingOk(r, header) && r.tail != []
    ensures ReadingOk(Before(r), header) && Read(Before(r), LastLine(r), header) == r
  {
    Rejoined(r.tail);
    GapMore(Front(r.tail), Last(r.tail), r.parts == [], header);
    OpenToo(r.parts, header);
  }

  lemma {:induction false} BeforeHeader(r: Reading, header: Pattern)
    requires ReadingOk(r, header) && r.tail == [] && r.parts != [] && Last(r.parts).body == []
    ensures ReadingOk(Before(r), header) && Read(Before(r), LastLine(r), header) == r
  {
    OpenToo(Front(r.parts), header);
    FrontAndLast(r.parts);
  }

  lemma {:induction false} FrontAndLast(parts: seq<Part>)
    requires parts != []
    ensures Front(parts) + [Last(parts)] == parts
  {
  }

  lemma {:induction false} BeforeOk(r: Reading, header: Pattern)
    requires ReadingOk(r, header) && r != NOTHING
    ensures ReadingOk(Before(r), header) && Read(Before(r), LastLine(r), header) == r
  {
    if r.tail != [] {
      BeforeTail(r, header);
    } else if Last(r.parts).body == [] {
      BeforeHeader(r, header);
    } else {
      BeforeBody(r.parts, header);
    }
  }

  /** Reading the lines that spell the beginning of a layout gives it back. */
  lemma {:induction false} ReadBack(r: Reading, header: Pattern)
    requires ReadingOk(r, header)
    ensures ReadingOf(Spell(r), Reader(header)) == r
    decreases |Spell(r)|
  {
    if r != NOTHING {
      BeforeOk(r, header);
      SpellRead(Before(r), LastLine(r), header);
      ReadBack(Before(r), header);
      assert Front(Spell(r)) == Spell(Before(r));
    }
  }

  lemma {:induction false} SpellReading(lines: seq<string>, header: Pattern)
    ensures IsReached(ReadingOf(lines, Reader(header))) && Spell(ReadingOf(lines, Reader(header))) == lines
  {
    if lines != [] {
      var r := ReadingOf(Front(lines), Reader(header));
      SpellReading(Front(lines), header);
      ReachesMore(r, Last(lines), header);
      SpellRead(r, Last(lines), header);
      Rejoined(lines);
    }
  }

  // ----- whole patches

  lemma {:induction false} FinishedIs(r: Reading, header: Pattern)
    requires ReadingOk(r, header)
    ensures Finish(StateOf(r, header)).Some? <==> IsLayout(r.parts, r.tail, header)
    ensures Finish(StateOf(r, header)).Some? ==> Finish(StateOf(r, header)).value == State(HunksOf(r.parts, header), None)
  {
    if r.open {
      PartsOpen(r.parts, header);
      assert r.parts == Front(r.parts) + [Last(r.parts)];
      PartsMore(Front(r.parts), Last(r.parts), false, header);
    }
  }

  ghost predicate IsLayoutOf(lines: seq<string>, hunks: seq<Hunk>, parts: seq<Part>, tail: seq<string>, header: Pattern) {
    IsLayout(parts, tail, header) && SpellParts(parts) + tail == lines && HunksOf(parts, header) == hunks
  }

  /** The parser succeeds on exactly the texts that have a layout, and returns its hunks; on all others
      it fails. */
  lemma {:induction false} ParsesExactly(text: string, header: Pattern)
    ensures forall hunks :: Parse(text, header) == Some(hunks) <==> exists parts, tail :: IsLayoutOf(LfLines(text), hunks, parts, tail, header)
    ensures Parse(text, header).None? <==> forall hunks, parts, tail :: !IsLayoutOf(LfLines(text), hunks, parts, tail, header)
  {
    if Parse(text, header).Some? {
      ParsedHasLayout(text, header);
    }
    forall hunks, parts, tail | IsLayoutOf(LfLines(text), hunks, parts, tail, header) ensures Parse(text, header) == Some(hunks) {
      LayoutParses(text, hunks, parts, tail, header);
    }
  }

  lemma {:induction false} ParsedHasLayout(text: string, header: Pattern)
    requires Parse(text, header).Some?
    ensures exists parts, tail :: IsLayoutOf(LfLines(text), Parse(text, header).value, parts, tail, header)
  {
    var lines := LfLines(text);
    var r := ReadingOf(lines, Reader(header));
    RunReads(lines, header);
    SpellReading(lines, header);
    FinishedIs(r, header);
    assert IsLayoutOf(lines, Parse(text, header).value, r.parts, r.tail, header);
  }

  lemma {:induction false} LayoutParses(text: string, hunks: seq<Hunk>, parts: seq<Part>, tail: seq<string>, header: Pattern)
    requires IsLayoutOf(LfLines(text), hunks, parts, tail, header)
    ensures Parse(text, header) == Some(hunks)
  {
    var lines := LfLines(text);
    var r := Reading(parts, tail, parts != [] && tail == []);
    OpenToo(parts, header);
    RunReads(lines, header);
    ReadBack(r, header);
    FinishedIs(r, header);
  }

  // ----- a patch as Git prints it

  /** The lines before the hunks of a file, and its hunks. */
  datatype Section = Section(gap: seq<string>, hunks: seq<Hunk>)

  function PrintSections(sections: seq<Section>): seq<string> {
    if sections == [] then [] else PrintSections(Front(sections)) + Last(sections).gap + PrintHunkLines(Last(sections).hunks)
  }

  function AllHunks(sections: seq<Section>): seq<Hunk> {
    if sections == [] then [] else AllHunks(Front(sections)) + Last(sections).hunks
  }

  /** File lines are no hunk headers, and where hunks came before, the first of them ends a body. */
  predicate SectionsOk(sections: seq<Section>, header: Pattern) {
    sections != [] ==>
      && SectionsOk(Front(sections), header) && GapOk(Last(sections).gap, AllHunks(Front(sections)) == [], header)
      && AllSound(Last(sections).hunks)
  }

  /** Lines without a hunk are skipped, and a line that ends a body finishes the hunk. */
  ghost predicate Skips(step: DiffHunks.Reader, header: Pattern) {
    && (forall state: State, raw :: header(raw).None? && state.current.None? ==> step(state, raw) == Some(state))
    && (forall state: State, raw :: header(raw).None? && EndsBody(raw) ==> step(state, raw) == Finish(state))
  }

  lemma {:induction false} StepSkips(header: Pattern)
    ensures Skips(Stepper(header), header)
  {
  }

  /** The hunks read so far, the last of them being finished. */
  predicate HasRead(raw: seq<string>, hunks: seq<Hunk>, step: DiffHunks.Reader) {
    Run(raw, step).Some? && Finish(Run(raw, step).value) == Some(State(hunks, None))
  }

  lemma {:induction false} SkipGap(raw: seq<string>, gap: seq<string>, hunks: seq<Hunk>, step: DiffHunks.Reader, header: Pattern)
    requires Skips(step, header) && HasRead(raw, hunks, step) && NoHeaders(gap, header)
    requires gap != [] ==> Run(raw, step).value.current.None? || EndsBody(gap[0])
    ensures HasRead(raw + gap, hunks, step) && (gap != [] ==> Run(raw + gap, step).value.current.None?)
  {
    if gap == [] {
      assert raw + gap == raw;
    } else if |gap| == 1 {
      SkipLine(raw, gap[0], hunks, step, header);
      assert gap == [gap[0]];
    } else {
      SkipGap(raw, Front(gap), hunks, step, header);
      SkipLine(raw + Front(gap), Last(gap), hunks, step, header);
      Rejoined(gap);
      Regrouped(raw, Front(gap), [Last(gap)]);
    }
  }

  lemma {:induction false} Regrouped<T>(a: seq<T>, b: seq<T>, c: seq<T>)
    ensures a + b + c == a + (b + c)
  {
  }

  lemma {:induction false} SkipLine(raw: seq<string>, line: string, hunks: seq<Hunk>, step: DiffHunks.Reader, header: Pattern)
    requires Skips(step, header) && HasRead(raw, hunks, step) && header(line).None?
    requires Run(raw, step).value.current.None? || EndsBody(line)
    ensures HasRead(raw + [line], hunks, step) && Run(raw + [line], step).value.current.None?
  {
    RunMore(raw, line, step);
  }

  lemma {:induction false} ReadMoreHunks(raw: seq<string>, before: seq<Hunk>, hunks: seq<Hunk>, step: DiffHunks.Reader)
    requires Prints(step) && AllSound(hunks) && HasRead(raw, before, step)
    ensures HasRead(raw + PrintHunkLines(hunks), before + hunks, step)
  {
    if hunks == [] {
      assert raw + PrintHunkLines(hunks) == raw && before + hunks == before;
    } else {
      var printed, last := PrintHunkLines(Front(hunks)), [HeaderText(Last(hunks).c)] + PrintLines(Last(hunks).lines);
      ReadMoreHunks(raw, before, Front(hunks), step);
      ReadPrintedHunk(raw + printed, before + Front(hunks), Last(hunks), step);
      Regrouped(raw, printed, last);
      Regrouped(before, Front(hunks), [Last(hunks)]);
      assert Front(hunks) + [Last(hunks)] == hunks;
    }
  }

  lemma {:induction false} NothingOpen(raw: seq<string>, step: DiffHunks.Reader)
    requires HasRead(raw, [], step)
    ensures Run(raw, step).value.current.None?
  {
  }

  lemma {:induction false} ReadSections(sections: seq<Section>, step: DiffHunks.Reader, header: Pattern)
    requires Prints(step) && Skips(step, header) && SectionsOk(sections, header)
    ensures HasRead(PrintSections(sections), AllHunks(sections), step)
  {
    if sections != [] {
      var front, last := Front(sections), Last(sections);
      ReadSections(front, step, header);
      if AllHunks(front) == [] {
        NothingOpen(PrintSections(front), step);
      }
      SkipGap(PrintSections(front), last.gap, AllHunks(front), step, header);
      ReadMoreHunks(PrintSections(front) + last.gap, AllHunks(front), last.hunks, step);
    }
  }

  /** A whole Git patch, file lines and all, parses to the hunks of its files, in order. */
  lemma {:induction false} GitPatchParses(sections: seq<Section>, header: Pattern)
    requires ReadsHeaders(header) && SectionsOk(sections, header) && AreLines(PrintSections(sections))
    ensures Parse(Flatten(PrintSections(sections)), header) == Some(AllHunks(sections))
  {
    WholeLinesSplit(PrintSections(sections));
    StepPrints(header);
    StepSkips(header);
    ReadSections(sections, Stepper(header), header);
  }
}

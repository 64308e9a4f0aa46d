/** The scanner as the source runs it: variables updated byte by byte over chunks. */
module PackedRefReader {
  import opened LineSplitting
  import opened PackedRefs
  import opened PackedRefScanner

  /** `finish_line`: the decision at an LF, and whether the line was a direct entry. */
  method FinishLine(f: LineFields, lineNumber: nat, previousLineWasDirect: bool, found: Option<seq<Byte>>,
      layout: Layout, target: seq<Byte>) returns (verdict: Verdict, isDirect: bool)
    ensures verdict == LineVerdict(f, lineNumber, previousLineWasDirect, found, layout, target)
    ensures isDirect == (f.firstByte.Some? && f.firstByte.value != HASH && f.firstByte.value != CARET)
  {
    verdict, isDirect := Accepted(found), false;
    if f.firstByte.None? {
      verdict := Rejected;
    } else if f.firstByte.value == HASH {
      if lineNumber != 0 || !f.commentValid || f.rawHeaderPrefix != layout.header {
        verdict := Rejected;
      }
    } else if f.firstByte.value == CARET {
      if !previousLineWasDirect || ParsePackedOid(f.rawPeeledOid, layout.expectedLength).Invalid? {
        verdict := Rejected;
      }
    } else {
      isDirect := true;
      var oid := ParsePackedOid(f.rawOid, layout.expectedLength);
      if || oid.Invalid? || !f.separatorSeen || f.rawRefLength == 0 || !f.rawRefValid
         || f.rawRefPrevious == Some(SLASH) || f.rawRefPrevious == Some(DOT)
         || EndsWithLock(f.rawComponentSuffix)
         || (f.rawRefLength == 1 && f.rawRefPrevious == Some(AT))
      {
        verdict := Rejected;
      } else if f.rawRefMatches && f.rawRefLength == |target| {
        verdict := if found.Some? then Rejected else Accepted(Some(oid.value));
      }
    }
  }

  /** `consume_ref_byte` */
  method ConsumeRefByte(f: LineFields, b: Byte, target: seq<Byte>) returns (g: LineFields)
    ensures g == StepRef(f, b, target)
  {
    var matches, valid, suffix := f.rawRefMatches, f.rawRefValid, f.rawComponentSuffix;
    if f.rawRefLength >= |target| || b != target[f.rawRefLength] {
      matches := false;
    }
    if || IsForbiddenInRef(b)
       || (f.rawRefPrevious == Some(DOT) && b == DOT)
       || (f.rawRefPrevious == Some(AT) && b == BRACE)
    {
      valid := false;
    }
    if b == SLASH {
      if f.rawRefLength == 0 || f.rawRefPrevious == Some(SLASH) {
        valid := false;
      }
      if EndsWithLock(suffix) {
        valid := false;
      }
      suffix := [];
    } else {
      if suffix == [] && b == DOT {
        valid := false;
      }
      suffix := suffix + [b];
      if |suffix| > LOCK_LENGTH {
        suffix := suffix[|suffix| - LOCK_LENGTH..];
      }
    }
    g := f.(rawRefMatches := matches, rawRefValid := valid, rawComponentSuffix := suffix,
            rawRefPrevious := Some(b), rawRefLength := f.rawRefLength + 1);
  }

  /** The loop body for any byte but LF. */
  method ConsumeByte(f: LineFields, b: Byte, layout: Layout, target: seq<Byte>) returns (g: LineFields)
    ensures g == Step(f, b, layout, target)
  {
    g := f;
    if f.firstByte.None? {
      g := g.(firstByte := Some(b));
      if b == CARET {
        return;
      }
    }
    if g.firstByte.value == HASH {
      if |g.rawHeaderPrefix| < |layout.header| {
        g := g.(rawHeaderPrefix := g.rawHeaderPrefix + [b]);
      }
      if b == '\0' {
        g := g.(commentValid := false);
      }
    } else if g.firstByte.value == CARET {
      g := g.(rawPeeledOid := Bounded(g.rawPeeledOid, b, layout.expectedLength + 1));
    } else if !g.separatorSeen {
      if IsSeparator(b) {
        g := g.(separatorSeen := true, rawRefMatches := true);
      } else {
        g := g.(rawOid := Bounded(g.rawOid, b, layout.expectedLength + 1));
      }
    } else {
      g := ConsumeRefByte(g, b, target);
    }
  }

  lemma {:induction false} BodiesConcat(a: seq<Byte>, b: seq<Byte>)
    requires Terminated(a, IsLf)
    ensures Bodies(a + b) == Bodies(a) + Bodies(b)
  {
    LinesConcat(a, b, IsLf);
  }

  /** A rejected beginning spoils the whole file. */
  lemma {:induction false} RejectedBeginning(data: seq<Byte>, rest: seq<Byte>, bodies: seq<seq<Byte>>, line: seq<Byte>, layout: Layout, target: seq<Byte>)
    requires Splits(data, bodies, line) && Decide(bodies + [line], layout, target).Rejected?
    ensures !Acceptable(data + [LF] + rest, layout, target)
  {
    LineFeedFinishes(data, bodies, line);
    BodiesOf(data + [LF], bodies + [line], []);
    BodiesConcat(data + [LF], rest);
    RejectionIsFinal(bodies + [line], Bodies(rest), layout, target);
    DecideIsGrammar(bodies + [line] + Bodies(rest), layout, target);
  }

  predicate IsScanInput(ref: string, objectFormat: string) {
    objectFormat in OBJECT_FORMAT_LENGTHS && IsAscii(ref) && REFS_PREFIX <= ref
  }

  /** `_scan_packed_repair_ref`: whatever the chunks, it accepts exactly the files of the
      grammar and returns exactly the object ID of the target's line. */
  method ScanPackedRepairRef(chunks: seq<seq<Byte>>, ref: string, objectFormat: string)
    returns (r: Result<(Option<seq<Byte>>, nat)>)
    ensures r.Ok? <==>
      && IsScanInput(ref, objectFormat)
      && Acceptable(Flatten(chunks), Layout(HEADER, OBJECT_FORMAT_LENGTHS[objectFormat]), ref)
    ensures r.Ok? ==>
      && r.value.1 == |Flatten(chunks)|
      && IsLookup(Bodies(Flatten(chunks)), Layout(HEADER, OBJECT_FORMAT_LENGTHS[objectFormat]), ref, r.value.0)
  {
    if objectFormat !in OBJECT_FORMAT_LENGTHS || !IsAscii(ref) || !(REFS_PREFIX <= ref) {
      return Invalid;
    }
    var layout, target := Layout(HEADER, OBJECT_FORMAT_LENGTHS[objectFormat]), ref;
    r := ScanChunks(chunks, layout, target);
  }

  /** The scanner's variables are right about the lines finished so far and the current one. */
  ghost predicate Tracks(found: Option<seq<Byte>>, fields: LineFields, previousLineWasDirect: bool, lineNumber: nat,
      bodies: seq<seq<Byte>>, line: seq<Byte>, layout: Layout, target: seq<Byte>)
  {
    && fields == FieldsAfter(line, layout, target)
    && lineNumber == |bodies|
    && previousLineWasDirect == (bodies != [] && IsDirect(Last(bodies), layout))
    && Decide(bodies, layout, target) == Accepted(found)
  }

  lemma {:induction false} LineFinished(found: Option<seq<Byte>>, fields: LineFields, previousLineWasDirect: bool, lineNumber: nat,
      bodies: seq<seq<Byte>>, line: seq<Byte>, layout: Layout, target: seq<Byte>)
    requires IsLayout(layout) && Tracks(found, fields, previousLineWasDirect, lineNumber, bodies, line, layout, target)
    ensures
      var verdict := LineVerdict(fields, lineNumber, previousLineWasDirect, found, layout, target);
      && Decide(bodies + [line], layout, target) == verdict
      && (verdict.Accepted? ==>
            Tracks(verdict.found, NEW_LINE, IsEntry(line), lineNumber + 1, bodies + [line], [], layout, target))
    ensures fields.firstByte == if line == [] then None else Some(line[0])
  {
    VerdictIsGrammar(bodies, line, found, layout, target);
    FirstByteMeans(line, layout, target);
    assert Front(bodies + [line]) == bodies && Last(bodies + [line]) == line;
    if IsEntry(line) {
      JudgeEntry(bodies, line, layout, target, found);
    } else {
      JudgeOther(bodies, line, layout, target, found);
    }
  }

  /** The variables the scanner keeps between bytes. */
  datatype Scanner = Scanner(
    found: Option<seq<Byte>>, fields: LineFields, previousLineWasDirect: bool, lineNumber: nat, endedAtNewline: bool)

  /** The scanner has read `data`: these lines are finished, and `line` is the current one. */
  ghost predicate HasRead(s: Scanner, data: seq<Byte>, bodies: seq<seq<Byte>>, line: seq<Byte>, layout: Layout, target: seq<Byte>) {
    && Splits(data, bodies, line) && s.endedAtNewline == (line == [])
    && Tracks(s.found, s.fields, s.previousLineWasDirect, s.lineNumber, bodies, line, layout, target)
  }

  /** One byte; `None` when it ends a line that is refused. */
  method ScanByte(s: Scanner, b: Byte, layout: Layout, target: seq<Byte>, ghost data: seq<Byte>, ghost bodies: seq<seq<Byte>>, ghost line: seq<Byte>)
    returns (s': Option<Scanner>, ghost bodies': seq<seq<Byte>>, ghost line': seq<Byte>)
    requires IsLayout(layout) && HasRead(s, data, bodies, line, layout, target)
    ensures s'.Some? ==> HasRead(s'.value, data + [b], bodies', line', layout, target)
    ensures s'.None? ==> b == LF && Decide(bodies + [line], layout, target).Rejected?
  {
    if b == LF {
      LineFinished(s.found, s.fields, s.previousLineWasDirect, s.lineNumber, bodies, line, layout, target);
      var verdict, isDirect := FinishLine(s.fields, s.lineNumber, s.previousLineWasDirect, s.found, layout, target);
      if verdict.Rejected? {
        return None, bodies, line;
      }
      LineFeedFinishes(data, bodies, line);
      return Some(Scanner(verdict.found, NEW_LINE, isDirect, s.lineNumber + 1, true)), bodies + [line], [];
    }
    OtherByteExtends(data, bodies, line, b);
    assert Front(line + [b]) == line;
    var fields := ConsumeByte(s.fields, b, layout, target);
    return Some(s.(fields := fields, endedAtNewline := false)), bodies, line + [b];
  }

  /** Where a refused line ends. */
  datatype Refusal = Refusal(at: nat, bodies: seq<seq<Byte>>, line: seq<Byte>)

  ghost predicate IsRefused(before: seq<Byte>, chunk: seq<Byte>, refusal: Refusal, layout: Layout, target: seq<Byte>) {
    && refusal.at < |chunk| && chunk[refusal.at] == LF && Splits(before + chunk[..refusal.at], refusal.bodies, refusal.line)
    && Decide(refusal.bodies + [refusal.line], layout, target).Rejected?
  }

  /** One chunk. */
  method ScanChunk(s: Scanner, chunk: seq<Byte>, layout: Layout, target: seq<Byte>, ghost before: seq<Byte>,
      ghost bodies: seq<seq<Byte>>, ghost line: seq<Byte>)
    returns (s': Option<Scanner>, ghost bodies': seq<seq<Byte>>, ghost line': seq<Byte>, ghost refusal: Refusal)
    requires IsLayout(layout) && HasRead(s, before, bodies, line, layout, target)
    ensures s'.Some? ==> HasRead(s'.value, before + chunk, bodies', line', layout, target)
    ensures s'.None? ==> IsRefused(before, chunk, refusal, layout, target)
  {
    var now := s;
    bodies', line', refusal := bodies, line, Refusal(0, [], []);
    ghost var data := before;
    for j := 0 to |chunk|
      invariant data == before + chunk[..j] && HasRead(now, data, bodies', line', layout, target)
    {
      refusal := Refusal(j, bodies', line');
      NextByte(before, chunk, j);
      var next;
      next, bodies', line' := ScanByte(now, chunk[j], layout, target, data, bodies', line');
      if next.None? {
        return None, bodies', line', refusal;
      }
      now := next.value;
      data := data + [chunk[j]];
    }
    assert chunk[..|chunk|] == chunk;
    return Some(now), bodies', line', refusal;
  }

  lemma {:induction false} NextByte(before: seq<Byte>, chunk: seq<Byte>, j: nat)
    requires j < |chunk|
    ensures before + chunk[..j + 1] == before + chunk[..j] + [chunk[j]]
  {
  }

  method ScanChunks(chunks: seq<seq<Byte>>, layout: Layout, target: seq<Byte>) returns (r: Result<(Option<seq<Byte>>, nat)>)
    requires IsLayout(layout)
    ensures r.Ok? <==> Acceptable(Flatten(chunks), layout, target)
    ensures r.Ok? ==>
      r.value.1 == |Flatten(chunks)| && IsLookup(Bodies(Flatten(chunks)), layout, target, r.value.0)
  {
    var s, total := Scanner(None, NEW_LINE, false, 0, true), 0;
    ghost var bodies, line := [], [];
    for i := 0 to |chunks|
      invariant total == |Flatten(chunks[..i])| && HasRead(s, Flatten(chunks[..i]), bodies, line, layout, target)
    {
      total := total + |chunks[i]|;
      FlattenTake(chunks, i);
      var next;
      ghost var refusal;
      next, bodies, line, refusal := ScanChunk(s, chunks[i], layout, target, Flatten(chunks[..i]), bodies, line);
      if next.None? {
        Spoiled(chunks, i, refusal, layout, target);
        return Invalid;
      }
      s := next.value;
    }
    assert chunks[..|chunks|] == chunks;
    ReadAll(s, Flatten(chunks), bodies, line, layout, target);
    return if s.endedAtNewline then Ok((s.found, total)) else Invalid;
  }

  /** At the end, the file is good exactly when its last line is finished. */
  lemma {:induction false} ReadAll(s: Scanner, data: seq<Byte>, bodies: seq<seq<Byte>>, line: seq<Byte>, layout: Layout, target: seq<Byte>)
    requires HasRead(s, data, bodies, line, layout, target)
    ensures s.endedAtNewline <==> Acceptable(data, layout, target)
    ensures s.endedAtNewline ==> IsLookup(Bodies(data), layout, target, s.found)
  {
    BodiesOf(data, bodies, line);
    if s.endedAtNewline {
      DecideIsGrammar(bodies, layout, target);
    }
  }

  /** A refused line spoils the file, whatever chunks follow. */
  lemma {:induction false} Spoiled(chunks: seq<seq<Byte>>, i: nat, refusal: Refusal, layout: Layout, target: seq<Byte>)
    requires i < |chunks| && IsRefused(Flatten(chunks[..i]), chunks[i], refusal, layout, target)
    ensures !Acceptable(Flatten(chunks), layout, target)
  {
    var before, j := Flatten(chunks[..i]), refusal.at;
    RejectedBeginning(before + chunks[i][..j], chunks[i][j + 1..] + Flatten(chunks[i + 1..]), refusal.bodies, refusal.line, layout, target);
    CutAt(chunks, i, j, before);
  }

  lemma {:induction false} CutAt(chunks: seq<seq<Byte>>, i: nat, j: nat, before: seq<Byte>)
    requires i < |chunks| && j < |chunks[i]| && before == Flatten(chunks[..i])
    ensures Flatten(chunks) == before + chunks[i][..j] + [chunks[i][j]] + (chunks[i][j + 1..] + Flatten(chunks[i + 1..]))
  {
    FlattenTake(chunks, i);
    assert chunks[i] == chunks[i][..j] + [chunks[i][j]] + chunks[i][j + 1..];
  }

  lemma {:induction false} FlattenTake(chunks: seq<seq<Byte>>, i: nat)
    requires i < |chunks|
    ensures Flatten(chunks[..i + 1]) == Flatten(chunks[..i]) + chunks[i]
    ensures Flatten(chunks) == Flatten(chunks[..i]) + chunks[i] + Flatten(chunks[i + 1..])
  {
    FlattenAppend(chunks[..i], [chunks[i]]);
    assert chunks[..i + 1] == chunks[..i] + [chunks[i]];
    FlattenAppend(chunks[..i + 1], chunks[i + 1..]);
    assert chunks == chunks[..i + 1] + chunks[i + 1..];
  }
}

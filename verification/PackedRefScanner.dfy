/** The streaming scanner of packed-refs: it sees one byte at a time, keeps only
    bounded buffers, and must decide the whole-line grammar of PackedRefs. */
module PackedRefScanner {
  import opened LineSplitting
  import opened PackedRefs

  datatype Result<+T> = Ok(value: T) | Invalid

  function Take<T>(s: seq<T>, n: nat): seq<T> {
    if |s| <= n then s else s[..n]
  }

  function TakeLast<T>(s: seq<T>, n: nat): seq<T> {
    if |s| <= n then s else s[|s| - n..]
  }

  function LastOf<T>(s: seq<T>): Option<T> {
    if s == [] then None else Some(Last(s))
  }

  // ----- the parts of a line

  predicate StartsWith(line: seq<Byte>, b: Byte) {
    line != [] && line[0] == b
  }

  predicate IsEntry(line: seq<Byte>) {
    line != [] && line[0] != HASH && line[0] != CARET
  }

  /** The index of the first separator, or the length when there is none. */
  function SeparatorAt(line: seq<Byte>): (i: nat)
    ensures i <= |line|
    ensures forall k :: 0 <= k < i ==> !IsSeparator(line[k])
    ensures i < |line| ==> IsSeparator(line[i])
  {
    if line == [] then 0
    else
      var i := SeparatorAt(Front(line));
      if i < |line| - 1 then i else if IsSeparator(Last(line)) then |line| - 1 else |line|
  }

  function RefText(line: seq<Byte>): seq<Byte> {
    if SeparatorAt(line) < |line| then line[SeparatorAt(line) + 1..] else []
  }

  /** `_parse_packed_oid`: the normalised object ID of exactly `expectedLength` digits. */
  function ParsePackedOid(raw: seq<Byte>, expectedLength: nat): (r: Result<seq<Byte>>)
    ensures r.Ok? <==> IsOid(raw, expectedLength)
    ensures r.Ok? ==> r.value == Lower(raw) && IsOid(r.value, expectedLength) && Lower(r.value) == r.value
  {
    if IsOid(raw, expectedLength) then
      assert forall i :: 0 <= i < |raw| && raw[i] != '0' ==> Lower(raw)[i] != '0';
      Ok(Lower(raw))
    else Invalid
  }

  /** A bounded copy of the OID field decides as well as the whole field. */
  lemma {:induction false} BoundedOid(raw: seq<Byte>, expectedLength: nat)
    ensures IsOid(Take(raw, expectedLength + 1), expectedLength) <==> IsOid(raw, expectedLength)
    ensures IsOid(raw, expectedLength) ==> Take(raw, expectedLength + 1) == raw
  {
  }

  lemma {:induction false} BoundedSuffix(component: seq<Byte>)
    ensures EndsWithLock(TakeLast(component, LOCK_LENGTH)) <==> EndsWithLock(component)
    ensures TakeLast(component, LOCK_LENGTH) == [] <==> component == []
  {
  }

  /** What the scanner knows of an entry at the end of its line. */
  predicate EntryOk(line: seq<Byte>, layout: Layout) {
    && IsOid(Take(line[..SeparatorAt(line)], layout.expectedLength + 1), layout.expectedLength)
    && SeparatorAt(line) < |line|
    && PrefixOk(RefText(line)) && ClosesOk(RefText(line))
  }

  /** It is what the grammar asks of the whole line. */
  lemma {:induction false} EntryDecided(line: seq<Byte>, layout: Layout)
    ensures IsDirect(line, layout) <==> EntryOk(line, layout)
    ensures IsDirect(line, layout) ==> SeparatorAt(line) == layout.expectedLength
  {
    BoundedOid(line[..SeparatorAt(line)], layout.expectedLength);
    if SeparatorAt(line) < |line| {
      RefNameDecided(RefText(line));
    }
    if IsDirect(line, layout) {
      assert forall k :: 0 <= k < layout.expectedLength ==> line[k] == line[..layout.expectedLength][k];
      assert SeparatorAt(line) == layout.expectedLength;
    }
  }

  lemma {:induction false} KindsAreDisjoint(line: seq<Byte>, layout: Layout)
    requires IsLayout(layout) && line != []
    ensures IsHeader(line, layout) ==> line[0] == HASH
    ensures IsPeeled(line, layout) ==> line[0] == CARET
    ensures IsDirect(line, layout) ==> line[0] != HASH && line[0] != CARET
  {
    if IsDirect(line, layout) {
      assert line[..layout.expectedLength][0] == line[0];
    }
  }

  /** The verdict on a next line that is not a direct entry. */
  lemma {:induction false} JudgeOther(bodies: seq<seq<Byte>>, line: seq<Byte>, layout: Layout, target: seq<Byte>, found: Option<seq<Byte>>)
    requires IsLayout(layout) && (line == [] || line[0] == HASH || line[0] == CARET)
    ensures !IsDirect(line, layout)
    ensures Judge(bodies + [line], layout, target, found) ==
      if || (StartsWith(line, HASH) && bodies == [] && Take(line, |layout.header|) == layout.header && '\0' !in line)
         || (StartsWith(line, CARET) && bodies != [] && IsDirect(Last(bodies), layout)
             && IsOid(Take(line[1..], layout.expectedLength + 1), layout.expectedLength))
      then Accepted(found) else Rejected
  {
    if line != [] {
      KindsAreDisjoint(line, layout);
      BoundedOid(line[1..], layout.expectedLength);
    }
  }

  /** The verdict on a next line that starts like a direct entry. */
  lemma {:induction false} JudgeEntry(bodies: seq<seq<Byte>>, line: seq<Byte>, layout: Layout, target: seq<Byte>, found: Option<seq<Byte>>)
    requires IsLayout(layout) && line != [] && line[0] != HASH && line[0] != CARET
    ensures IsDirect(line, layout) == EntryOk(line, layout)
    ensures Judge(bodies + [line], layout, target, found) ==
      if !EntryOk(line, layout) then Rejected
      else if RefText(line) != target then Accepted(found)
      else if found.Some? then Rejected
      else Accepted(Some(Lower(Take(line[..SeparatorAt(line)], layout.expectedLength + 1))))
  {
    KindsAreDisjoint(line, layout);
    EntryDecided(line, layout);
    assert LineAllowed(bodies + [line], |bodies|, layout) == IsDirect(line, layout);
  }

  /** The lines finished so far, as they stand in the data. */
  function Terminate(bodies: seq<seq<Byte>>): seq<seq<Byte>> {
    if bodies == [] then [] else Terminate(Front(bodies)) + [Last(bodies) + [LF]]
  }

  function Pending(line: seq<Byte>): seq<seq<Byte>> {
    if line == [] then [] else [line]
  }

  lemma {:induction false} TerminateAt(bodies: seq<seq<Byte>>)
    ensures |Terminate(bodies)| == |bodies|
    ensures forall i :: 0 <= i < |bodies| ==> Terminate(bodies)[i] == bodies[i] + [LF]
  {
    if bodies != [] {
      TerminateAt(Front(bodies));
    }
  }

  /** `bodies` and `line` are how the bytes read so far split into lines. */
  ghost predicate Splits(data: seq<Byte>, bodies: seq<seq<Byte>>, line: seq<Byte>) {
    Lines(data, IsLf) == Terminate(bodies) + Pending(line) && LF !in line
  }

  lemma {:induction false} BodiesOf(data: seq<Byte>, bodies: seq<seq<Byte>>, line: seq<Byte>)
    requires Splits(data, bodies, line)
    ensures Terminated(data, IsLf) <==> line == []
    ensures Open(Lines(data, IsLf), IsLf) <==> line != []
    ensures line == [] ==> Bodies(data) == bodies
  {
    LinesSound(data, IsLf);
    TerminateAt(bodies);
    if line == [] {
      assert Lines(data, IsLf) == Terminate(bodies);
      assert Bodies(data) == bodies;
    } else {
      assert Last(line) in line;
    }
  }

  /** An LF turns the current line into a finished one. */
  lemma {:induction false} LineFeedFinishes(data: seq<Byte>, bodies: seq<seq<Byte>>, line: seq<Byte>)
    requires Splits(data, bodies, line)
    ensures Splits(data + [LF], bodies + [line], [])
  {
    BodiesOf(data, bodies, line);
    assert Front(data + [LF]) == data;
    assert Front(bodies + [line]) == bodies;
    if line == [] {
      assert line + [LF] == [LF];
      assert Lines(data + [LF], IsLf) == Lines(data, IsLf) + [[LF]];
    } else {
      assert Front(Lines(data, IsLf)) == Terminate(bodies);
      assert Lines(data + [LF], IsLf) == Terminate(bodies) + [line + [LF]];
    }
  }

  /** Any other byte makes the current line longer. */
  lemma {:induction false} OtherByteExtends(data: seq<Byte>, bodies: seq<seq<Byte>>, line: seq<Byte>, b: Byte)
    requires Splits(data, bodies, line) && b != LF
    ensures Splits(data + [b], bodies, line + [b])
  {
    BodiesOf(data, bodies, line);
    assert Front(data + [b]) == data;
    var lines := Lines(data, IsLf);
    assert Lines(data + [b], IsLf) == Extend(lines, b, IsLf);
    if line == [] {
      assert line + [b] == [b];
      assert Extend(lines, b, IsLf) == lines + [[b]];
    } else {
      assert Last(lines) == line && Front(lines) == Terminate(bodies);
      assert Extend(lines, b, IsLf) == Terminate(bodies) + [line + [b]];
    }
  }

  // ----- the byte automaton

  /** What is kept of the current line. */
  datatype LineFields = LineFields(
    firstByte: Option<Byte>,
    rawOid: seq<Byte>,
    rawPeeledOid: seq<Byte>,
    separatorSeen: bool,
    rawRefMatches: bool,
    rawRefLength: nat,
    rawRefValid: bool,
    rawRefPrevious: Option<Byte>,
    rawComponentSuffix: seq<Byte>,
    rawHeaderPrefix: seq<Byte>,
    commentValid: bool)

  const NEW_LINE := LineFields(None, [], [], false, false, 0, true, None, [], [], true)

  function Bounded(raw: seq<Byte>, b: Byte, bound: nat): seq<Byte> {
    if |raw| < bound then raw + [b] else raw
  }

  /** One byte of a reference name. */
  function StepRef(f: LineFields, b: Byte, target: seq<Byte>): LineFields {
    var suffix := f.rawComponentSuffix;
    f.(rawRefMatches := f.rawRefMatches && f.rawRefLength < |target| && b == target[f.rawRefLength],
       rawRefValid := f.rawRefValid
         && !IsForbiddenInRef(b)
         && !(f.rawRefPrevious == Some(DOT) && b == DOT)
         && !(f.rawRefPrevious == Some(AT) && b == BRACE)
         && (if b == SLASH
             then f.rawRefLength != 0 && f.rawRefPrevious != Some(SLASH) && !EndsWithLock(suffix)
             else suffix != [] || b != DOT),
       rawComponentSuffix := if b == SLASH then [] else TakeLast(suffix + [b], LOCK_LENGTH),
       rawRefPrevious := Some(b),
       rawRefLength := f.rawRefLength + 1)
  }

  /** One byte of a line, not an LF. */
  function Step(f: LineFields, b: Byte, layout: Layout, target: seq<Byte>): LineFields {
    var first := if f.firstByte.None? then b else f.firstByte.value;
    var g := f.(firstByte := Some(first));
    if first == HASH then
      g.(rawHeaderPrefix := Bounded(f.rawHeaderPrefix, b, |layout.header|), commentValid := f.commentValid && b != '\0')
    else if first == CARET then
      if f.firstByte.None? then g
      else g.(rawPeeledOid := Bounded(f.rawPeeledOid, b, layout.expectedLength + 1))
    else if f.separatorSeen then StepRef(g, b, target)
    else if IsSeparator(b) then g.(separatorSeen := true, rawRefMatches := true)
    else g.(rawOid := Bounded(f.rawOid, b, layout.expectedLength + 1))
  }

  function FieldsAfter(line: seq<Byte>, layout: Layout, target: seq<Byte>): LineFields {
    if line == [] then NEW_LINE else Step(FieldsAfter(Front(line), layout, target), Last(line), layout, target)
  }

  // ----- what the fields mean

  lemma {:induction false} FirstByteMeans(line: seq<Byte>, layout: Layout, target: seq<Byte>)
    ensures FieldsAfter(line, layout, target).firstByte == if line == [] then None else Some(line[0])
  {
    if line != [] {
      FirstByteMeans(Front(line), layout, target);
    }
  }

  lemma {:induction false} CommentMeans(line: seq<Byte>, layout: Layout, target: seq<Byte>)
    requires IsLayout(layout) && StartsWith(line, HASH)
    ensures
      var f := FieldsAfter(line, layout, target);
      f.rawHeaderPrefix == Take(line, |layout.header|) && f.commentValid == ('\0' !in line)
  {
    FirstByteMeans(Front(line), layout, target);
    TakeMore(Front(line), Last(line), |layout.header|);
    assert line == Front(line) + [Last(line)];
    if |line| > 1 {
      CommentMeans(Front(line), layout, target);
    }
  }

  lemma {:induction false} TakeMore<T>(s: seq<T>, x: T, n: nat)
    ensures Take(s + [x], n) == if |s| < n then Take(s, n) + [x] else Take(s, n)
  {
  }

  lemma {:induction false} PeeledMeans(line: seq<Byte>, layout: Layout, target: seq<Byte>)
    requires StartsWith(line, CARET)
    ensures FieldsAfter(line, layout, target).rawPeeledOid == Take(line[1..], layout.expectedLength + 1)
  {
    FirstByteMeans(Front(line), layout, target);
    if |line| > 1 {
      assert line[1..] == Front(line)[1..] + [Last(line)];
      PeeledMeans(Front(line), layout, target);
    }
  }

  /** The name fields decide the name read so far. */
  predicate NameMeans(f: LineFields, name: seq<Byte>, target: seq<Byte>) {
    && f.rawRefMatches == (name <= target)
    && f.rawRefLength == |name|
    && f.rawRefValid == PrefixOk(name)
    && f.rawRefPrevious == LastOf(name)
    && f.rawComponentSuffix == TakeLast(OpenComponent(name), LOCK_LENGTH)
  }

  lemma {:induction false} SuffixStep(component: seq<Byte>, b: Byte)
    ensures TakeLast(TakeLast(component, LOCK_LENGTH) + [b], LOCK_LENGTH) == TakeLast(component + [b], LOCK_LENGTH)
  {
  }

  /** The bounded suffix is enough to make the test on the next byte. */
  lemma {:induction false} SuffixDecides(name: seq<Byte>, b: Byte)
    ensures
      var suffix := TakeLast(OpenComponent(name), LOCK_LENGTH);
      && (OpenComponent(name) == [] <==> name == [] || Last(name) == SLASH)
      && (suffix == [] <==> OpenComponent(name) == [])
      && (EndsWithLock(suffix) <==> EndsWithLock(OpenComponent(name)))
  {
    BoundedSuffix(OpenComponent(name));
  }

  lemma {:induction false} NameStep(f: LineFields, name: seq<Byte>, b: Byte, target: seq<Byte>)
    requires NameMeans(f, name, target)
    ensures NameMeans(StepRef(f, b, target), name + [b], target)
  {
    NameGrows(name, b);
    TargetStep(name, b, target);
    SuffixStep(OpenComponent(name), b);
    SuffixDecides(name, b);
  }

  /** What one more byte means for a name. */
  lemma {:induction false} NameGrows(name: seq<Byte>, b: Byte)
    ensures PrefixOk(name + [b]) <==> PrefixOk(name) && ByteOk(name, b)
    ensures OpenComponent(name + [b]) == if b == SLASH then [] else OpenComponent(name) + [b]
    ensures LastOf(name + [b]) == Some(b)
  {
    assert Front(name + [b]) == name;
  }

  lemma {:induction false} TargetStep(name: seq<Byte>, b: Byte, target: seq<Byte>)
    ensures name + [b] <= target <==> name <= target && |name| < |target| && b == target[|name|]
  {
    if name <= target && |name| < |target| && b == target[|name|] {
      assert target[..|name| + 1] == name + [b];
    }
  }

  lemma {:induction false} EntryMeans(line: seq<Byte>, layout: Layout, target: seq<Byte>)
    requires IsEntry(line)
    ensures
      var f := FieldsAfter(line, layout, target);
      && f.separatorSeen == (SeparatorAt(line) < |line|)
      && f.rawOid == Take(line[..SeparatorAt(line)], layout.expectedLength + 1)
      && (if f.separatorSeen then NameMeans(f, RefText(line), target)
          else f.rawRefLength == 0 && f.rawRefValid && f.rawRefPrevious == None && f.rawComponentSuffix == [])
  {
    var before, b := Front(line), Last(line);
    FirstByteMeans(before, layout, target);
    if |line| > 1 {
      EntryMeans(before, layout, target);
    }
    var f := FieldsAfter(before, layout, target);
    SeparatorStep(line);
    if f.separatorSeen {
      NameStep(f.(firstByte := Some(line[0])), RefText(before), b, target);
    }
  }

  /** Where the separator stands when one more byte is read. */
  lemma {:induction false} SeparatorStep(line: seq<Byte>)
    requires line != []
    ensures
      var before, b := Front(line), Last(line);
      if SeparatorAt(before) < |before| then
        && SeparatorAt(line) == SeparatorAt(before) && line[..SeparatorAt(line)] == before[..SeparatorAt(before)]
        && RefText(line) == RefText(before) + [b]
      else if IsSeparator(b) then SeparatorAt(line) == |before| && line[..SeparatorAt(line)] == before && RefText(line) == []
      else SeparatorAt(line) == |line| && line[..SeparatorAt(line)] == before + [b]
  {
  }

  /** The decision made at the LF, from the fields alone. */
  function LineVerdict(f: LineFields, lineNumber: nat, previousLineWasDirect: bool, found: Option<seq<Byte>>,
      layout: Layout, target: seq<Byte>): Verdict
  {
    if f.firstByte.None? then Rejected
    else if f.firstByte.value == HASH then
      if lineNumber == 0 && f.commentValid && f.rawHeaderPrefix == layout.header then Accepted(found) else Rejected
    else if f.firstByte.value == CARET then
      if previousLineWasDirect && IsOid(f.rawPeeledOid, layout.expectedLength) then Accepted(found) else Rejected
    else if !EntryFieldsOk(f, layout) then Rejected
    else if !(f.rawRefMatches && f.rawRefLength == |target|) then Accepted(found)
    else if found.Some? then Rejected
    else Accepted(Some(Lower(f.rawOid)))
  }

  predicate EntryFieldsOk(f: LineFields, layout: Layout) {
    && IsOid(f.rawOid, layout.expectedLength)
    && f.separatorSeen && f.rawRefLength != 0 && f.rawRefValid
    && f.rawRefPrevious != Some(SLASH) && f.rawRefPrevious != Some(DOT)
    && !EndsWithLock(f.rawComponentSuffix)
    && !(f.rawRefLength == 1 && f.rawRefPrevious == Some(AT))
  }

  lemma {:induction false} EntryFieldsDecide(line: seq<Byte>, layout: Layout, target: seq<Byte>)
    requires IsEntry(line)
    ensures EntryFieldsOk(FieldsAfter(line, layout, target), layout) <==> EntryOk(line, layout)
  {
    EntryMeans(line, layout, target);
    BoundedSuffix(OpenComponent(RefText(line)));
  }

  /** The automaton's verdict on a line is the grammar's. */
  lemma {:induction false} VerdictIsGrammar(bodies: seq<seq<Byte>>, line: seq<Byte>, found: Option<seq<Byte>>, layout: Layout, target: seq<Byte>)
    requires IsLayout(layout)
    ensures LineVerdict(FieldsAfter(line, layout, target), |bodies|, bodies != [] && IsDirect(Last(bodies), layout),
        found, layout, target) == Judge(bodies + [line], layout, target, found)
  {
    FirstByteMeans(line, layout, target);
    if IsEntry(line) {
      EntryMeans(line, layout, target);
      EntryFieldsDecide(line, layout, target);
      JudgeEntry(bodies, line, layout, target, found);
    } else {
      JudgeOther(bodies, line, layout, target, found);
      if StartsWith(line, HASH) {
        CommentMeans(line, layout, target);
      } else if StartsWith(line, CARET) {
        PeeledMeans(line, layout, target);
      }
    }
  }

  /** No buffer ever outgrows its bound, whatever the line. */
  lemma {:induction false} BuffersAreBounded(line: seq<Byte>, layout: Layout, target: seq<Byte>)
    ensures
      var f := FieldsAfter(line, layout, target);
      && |f.rawOid| <= layout.expectedLength + 1 && |f.rawPeeledOid| <= layout.expectedLength + 1
      && |f.rawComponentSuffix| <= LOCK_LENGTH && |f.rawHeaderPrefix| <= |layout.header|
  {
    if line != [] {
      BuffersAreBounded(Front(line), layout, target);
    }
  }
}

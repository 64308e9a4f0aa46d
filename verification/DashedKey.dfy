/** A private key with a line that looks like a file header: the plan is well formed, and the strict
    parser refuses its patch. */
module DashedKey {
  import opened LineSplitting
  import opened RepositoryPaths
  import opened MarkerPairing
  import opened PrivateKeyRanges
  import opened WirePatch
  import opened WirePatchText
  import opened DeletionPatch
  import opened DeletionPlan
  import opened PrivateKeyPlan

  /** Three lines, each with its LF. */
  function KeyText(begin: string, middle: string, end: string): string {
    (begin + "\n") + ((middle + "\n") + (end + "\n"))
  }

  function KeyFile(path: string, begin: string, middle: string, end: string): ProtectedFile {
    ProtectedFile(path, KeyText(begin, middle, end), [Range(1, 3)])
  }

  lemma {:induction false} IsOneLine(content: string)
    requires '\n' !in content
    ensures IsLine(content + "\n", IsNewline) && Last(content + "\n") == '\n' && Content(content + "\n") == content
  {
    assert Front(content + "\n") == content;
  }

  lemma {:induction false} FlattenThree(a: string, b: string, c: string)
    ensures Flatten([a, b, c]) == a + (b + c)
  {
    assert [a, b, c][1..] == [b, c] && [b, c][1..] == [c] && [c][1..] == [];
    assert Flatten([c]) == c && Flatten([b, c]) == b + c;
  }

  lemma {:induction false} KeyLines(begin: string, middle: string, end: string)
    requires '\n' !in begin && '\n' !in middle && '\n' !in end
    ensures LfLines(KeyText(begin, middle, end)) == [begin + "\n", middle + "\n", end + "\n"]
  {
    var lines := [begin + "\n", middle + "\n", end + "\n"];
    IsOneLine(begin);
    IsOneLine(middle);
    IsOneLine(end);
    FlattenThree(lines[0], lines[1], lines[2]);
    ThreeSplit(lines[0], lines[1], lines[2]);
    LinesUnique(lines, IsNewline);
  }

  lemma {:induction false} ThreeSplit(a: string, b: string, c: string)
    requires IsLine(a, IsNewline) && IsLine(b, IsNewline) && IsLine(c, IsNewline)
    requires Last(a) == Last(b) == Last(c) == '\n'
    ensures WellSplit([a, b, c], IsNewline)
  {
  }

  lemma {:induction false} TagOne(line: nat, marker: Marker)
    ensures Tag(line, [marker]) == [Tagged(line, marker)]
  {
    assert Front([marker]) == [];
  }

  lemma {:induction false} KeyMarkers(name: string)
    ensures TagAll([[Begin(name)], [], [End(name)]]) == [Tagged(1, Begin(name)), Tagged(3, End(name))]
  {
    var b, e: Marker := Begin(name), End(name);
    TagOne(1, b);
    TagOne(3, e);
    assert Front([[b], [], [e]]) == [[b], []] && Front([[b], []]) == [[b]] && Front([[b]]) == [];
    assert TagAll([[b]]) == [] + Tag(1, [b]);
    assert TagAll([[b], []]) == TagAll([[b]]) + [];
  }

  lemma {:induction false} KeyPairs(name: string, other: string)
    ensures
      var markers := [Tagged(1, Begin(name)), Tagged(3, End(name))];
      Fifo(markers, other).pairs == if other == name then [Pair(0, 1)] else []
  {
    var markers := [Tagged(1, Begin(name)), Tagged(3, End(name))];
    assert Front(markers) == [Tagged(1, Begin(name))] && Front(Front(markers)) == [];
    assert Fifo(Front(markers), other) == Pairing([], if other == name then [0] else []);
  }

  /** The scan protects exactly the three lines. */
  lemma {:induction false} KeyIsCovered(begin: string, middle: string, end: string, name: string, find: string -> seq<Marker>)
    requires '\n' !in begin && '\n' !in middle && '\n' !in end
    requires find(begin) == [Begin(name)] && find(middle) == [] && find(end) == [End(name)]
    ensures CoversProtected(KeyText(begin, middle, end), [Range(1, 3)], find)
  {
    var text := KeyText(begin, middle, end);
    var markers := [Tagged(1, Begin(name)), Tagged(3, End(name))];
    KeyLines(begin, middle, end);
    IsOneLine(begin);
    IsOneLine(middle);
    IsOneLine(end);
    assert MarkersOf(LfLines(text), find) == [[Begin(name)], [], [End(name)]];
    KeyMarkers(name);
    forall n: nat ensures InRanges([Range(1, 3)], n) <==> IsProtected(markers, n) {
      KeyProtects(name, n);
    }
  }

  lemma {:induction false} KeyProtects(name: string, n: nat)
    ensures InRanges([Range(1, 3)], n) <==> IsProtected([Tagged(1, Begin(name)), Tagged(3, End(name))], n)
  {
    var markers := [Tagged(1, Begin(name)), Tagged(3, End(name))];
    KeyPairs(name, name);
    assert InRanges([Range(1, 3)], n) <==> InRange([Range(1, 3)][0], n);
    assert InRange(Range(1, 3), n) <==> Covers(markers, name, 0, n);
    if IsProtected(markers, n) {
      var other, k :| 0 <= k < |Fifo(markers, other).pairs| && Covers(markers, other, k, n);
      KeyPairs(name, other);
    }
  }

  /** The plan of the file is what the method that prepares plans must use. */
  lemma {:induction false} KeyIsPlan(path: string, begin: string, middle: string, end: string, name: string, find: string -> seq<Marker>)
    requires '\n' !in begin && '\n' !in middle && '\n' !in end
    requires find(begin) == [Begin(name)] && find(middle) == [] && find(end) == [End(name)]
    ensures
      var file := KeyFile(path, begin, middle, end);
      FileFit(file) && PlanOf([AllowedFile(path, Some(file.text))], find, [file])
  {
    var file := KeyFile(path, begin, middle, end);
    var allowed := AllowedFile(path, Some(file.text));
    KeyIsCovered(begin, middle, end, name, find);
    KeyLines(begin, middle, end);
    RangesMeanPairs(file.text, file.ranges, find);
    PlanOfMore([], find, [], allowed, [file]);
    assert [] + [allowed] == [allowed];
  }

  /** A key with a line that starts with "-- " between its markers: the scan protects it, its
      deletion patch is well formed, and the parser takes the deletion for the start of another
      file and refuses the patch, whatever the limits. */
  lemma {:induction false} DashedKeyIsRejected(path: string, begin: string, middle: string, end: string, name: string,
      find: string -> seq<Marker>, request: Request)
    requires '\n' !in begin && '\n' !in middle && '\n' !in end && "-- " <= middle
    requires find(begin) == [Begin(name)] && find(middle) == [] && find(end) == [End(name)]
    requires path in request.allowedPaths && AsciiIsPlain(request.otherControl)
    ensures
      var file := KeyFile(path, begin, middle, end);
      && CoversProtected(file.text, file.ranges, find) && FilesFit([file])
      && PlanOf([AllowedFile(path, Some(file.text))], find, [file])
      && FilesOk(DeletionFiles([file]), request) && !ParseWirePatch(PrintPatch(DeletionFiles([file])), request).Ok?
  {
    var file := KeyFile(path, begin, middle, end);
    KeyIsCovered(begin, middle, end, name, find);
    KeyIsPlan(path, begin, middle, end, name, find);
    assert Front([file]) == [] && Last([file]) == file;
    PlanIsWellFormed([file], request);
    SecondLineIsDashed(path, begin, middle, end);
    if IsCanonicalPaths(request.allowedPaths, 1, 32, request.otherControl) {
      AcceptedExactly([file], request);
      assert !NoDashedLine([file][0]);
    }
  }

  lemma {:induction false} SecondLineIsDashed(path: string, begin: string, middle: string, end: string)
    requires '\n' !in begin && '\n' !in middle && '\n' !in end && "-- " <= middle
    ensures !NoDashedLine(KeyFile(path, begin, middle, end))
  {
    var file := KeyFile(path, begin, middle, end);
    KeyLines(begin, middle, end);
    IsOneLine(middle);
    assert ContentAt(LfLines(file.text), 2) == middle;
    assert InRange(file.ranges[0], 2);
  }
}

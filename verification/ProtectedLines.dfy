/** The protected lines by path, as the redactor is given them, and the lines of the deletion plan:
    the same lines. */
module ProtectedLines {
  import opened LineSplitting
  import opened RepositoryPaths
  import opened PrivateKeyRanges
  import opened DeletionPatch
  import opened PrivateKeyPlan
  import Pairing = MarkerPairing
  import opened DiffRedaction

  const MAX_PROTECTED_LINES := 10_000

  /** `_ProtectedPrivateKeyRange` */
  datatype ProtectedRange = ProtectedRange(path: string, range: Range)

  predicate RangeOk(item: ProtectedRange, other: char -> bool) {
    IsRepositoryPath(item.path, other) && 1 <= item.range.start <= item.range.end
  }

  /** Ascending by path, then by start, then by end. */
  predicate ComesBefore(a: ProtectedRange, b: ProtectedRange) {
    var (r, q) := (a.range, b.range);
    PathLess(a.path, b.path) || (a.path == b.path && r.start <= q.start && (r.start == q.start ==> r.end < q.end))
  }

  predicate ItemsOk(items: seq<ProtectedRange>, other: char -> bool) {
    items != [] ==>
      && ItemsOk(Front(items), other) && RangeOk(Last(items), other)
      && (|items| > 1 ==> ComesBefore(Last(Front(items)), Last(items)))
  }

  /** Some range of the path holds line `n`. */
  predicate IsListed(items: seq<ProtectedRange>, path: string, n: nat) {
    items != [] && (IsListed(Front(items), path, n) || (Last(items).path == path && InRange(Last(items).range, n)))
  }

  function CoordinatesIn(path: string, start: nat, end: nat): set<(string, nat)> {
    if end <= start then {} else CoordinatesIn(path, start, end - 1) + {(path, end - 1)}
  }

  lemma {:induction false} InCoordinates(path: string, start: nat, end: nat, other: string, n: nat)
    ensures (other, n) in CoordinatesIn(path, start, end) <==> other == path && start <= n < end
    decreases end
  {
    if start < end {
      InCoordinates(path, start, end - 1, other, n);
    }
  }

  /** All coordinates of some ranges, each once. */
  function CoordinatesOf(items: seq<ProtectedRange>): set<(string, nat)> {
    if items == [] then {}
    else CoordinatesOf(Front(items)) + CoordinatesIn(Last(items).path, Last(items).range.start, Last(items).range.end + 1)
  }

  lemma {:induction false} CoordinatesAreListed(items: seq<ProtectedRange>, path: string, n: nat)
    ensures (path, n) in CoordinatesOf(items) <==> IsListed(items, path, n)
  {
    if items != [] {
      var last := Last(items);
      CoordinatesAreListed(Front(items), path, n);
      InCoordinates(last.path, last.range.start, last.range.end + 1, path, n);
    }
  }

  /** A prefix that is refused, for its ranges or for their number, refuses the whole. */
  lemma {:induction false} PrefixDecides(items: seq<ProtectedRange>, n: nat, other: char -> bool)
    requires n <= |items|
    ensures ItemsOk(items, other) ==> ItemsOk(items[..n], other)
    ensures |CoordinatesOf(items[..n])| <= |CoordinatesOf(items)|
    decreases |items|
  {
    if n < |items| {
      PrefixDecides(Front(items), n, other);
      assert Front(items)[..n] == items[..n];
      SubsetSize(CoordinatesOf(Front(items)), CoordinatesOf(items));
    } else {
      assert items[..n] == items;
    }
  }

  lemma {:induction false} SubsetSize<T>(a: set<T>, b: set<T>)
    requires a <= b
    ensures |a| <= |b|
  {
    assert b == a + (b - a);
  }

  /** The map says what the coordinates say. */
  ghost predicate Says(pending: Protection, pairs: set<(string, nat)>) {
    forall path, n: nat :: IsProtected(pending, path, n) <==> (path, n) in pairs
  }

  function LinesOf(pending: Protection, path: string): set<nat> { if path in pending then pending[path] else {} }

  lemma {:induction false} SaysMore(pending: Protection, pairs: set<(string, nat)>, path: string, n: nat)
    requires path in pending && Says(pending, pairs)
    ensures
      var lines := pending[path] + {n};
      Says(pending[path := lines], pairs + {(path, n)}) && |pairs + {(path, n)}| - |pairs| == |lines| - |pending[path]|
  {
    assert IsProtected(pending, path, n) <==> (path, n) in pairs;
    if n in pending[path] {
      assert pending[path] + {n} == pending[path] && pairs + {(path, n)} == pairs;
    }
    var more := pending[path := pending[path] + {n}];
    forall p, k: nat ensures IsProtected(more, p, k) <==> (p, k) in pairs + {(path, n)} {
      assert IsProtected(pending, p, k) <==> (p, k) in pairs;
    }
  }

  /** The inner loop: the lines of one range join those of the path, and the total counts new ones. */
  method AddRange(pending: Protection, path: string, start: nat, end: nat, total: nat, ghost pairs: set<(string, nat)>)
    returns (pending': Protection, total': nat)
    requires Says(pending, pairs) && total == |pairs| && start <= end
    ensures Says(pending', pairs + CoordinatesIn(path, start, end + 1)) && total' == |pairs + CoordinatesIn(path, start, end + 1)|
  {
    var before := |LinesOf(pending, path)|;
    pending' := pending[path := LinesOf(pending, path)];
    ghost var now := pairs;
    StillSays(pending, pairs, path);
    NoLines(pairs, path, start);
    for n := start to end + 1
      invariant Added(pending', now, pairs, path, start, n, before)
    {
      AddLine(pending', now, pairs, path, start, n, before);
      pending' := pending'[path := pending'[path] + {n}];
      now := now + {(path, n)};
    }
    total' := total + |pending'[path]| - before;
  }

  /** The lines of the range before `n` have joined those of the path. */
  ghost predicate Added(pending: Protection, now: set<(string, nat)>, pairs: set<(string, nat)>, path: string, start: nat, n: nat, before: nat) {
    && path in pending && Says(pending, now) && now == pairs + CoordinatesIn(path, start, n)
    && |now| - |pairs| == |pending[path]| - before
  }

  lemma {:induction false} AddLine(pending: Protection, now: set<(string, nat)>, pairs: set<(string, nat)>, path: string, start: nat, n: nat,
      before: nat)
    requires Added(pending, now, pairs, path, start, n, before) && start <= n
    ensures Added(pending[path := pending[path] + {n}], now + {(path, n)}, pairs, path, start, n + 1, before)
  {
    SaysMore(pending, now, path, n);
    OneMoreLine(pairs, path, start, n);
  }

  lemma {:induction false} StillSays(pending: Protection, pairs: set<(string, nat)>, path: string)
    requires Says(pending, pairs)
    ensures Says(pending[path := LinesOf(pending, path)], pairs)
  {
    forall p, k: nat ensures IsProtected(pending[path := LinesOf(pending, path)], p, k) <==> (p, k) in pairs {
      assert IsProtected(pending, p, k) <==> (p, k) in pairs;
    }
  }

  lemma {:induction false} NoLines(pairs: set<(string, nat)>, path: string, start: nat)
    ensures pairs + CoordinatesIn(path, start, start) == pairs
  {
  }

  lemma {:induction false} OneMoreLine(pairs: set<(string, nat)>, path: string, start: nat, n: nat)
    requires start <= n
    ensures pairs + CoordinatesIn(path, start, n) + {(path, n)} == pairs + CoordinatesIn(path, start, n + 1)
  {
  }

  /** What is known after some ranges. */
  ghost predicate Mapped(done: seq<ProtectedRange>, pending: Protection, total: nat, other: char -> bool) {
    ItemsOk(done, other) && Says(pending, CoordinatesOf(done)) && total == |CoordinatesOf(done)| <= MAX_PROTECTED_LINES
  }

  lemma {:induction false} NextItem(done: seq<ProtectedRange>, item: ProtectedRange, other: char -> bool)
    ensures ItemsOk(done + [item], other) <==>
      ItemsOk(done, other) && RangeOk(item, other) && (done != [] ==> ComesBefore(Last(done), item))
    ensures CoordinatesOf(done + [item]) == CoordinatesOf(done) + CoordinatesIn(item.path, item.range.start, item.range.end + 1)
  {
    assert Front(done + [item]) == done && Last(done + [item]) == item;
  }

  /** One range. */
  method AddItem(item: ProtectedRange, previous: Option<ProtectedRange>, pending: Protection, total: nat, other: char -> bool,
      ghost done: seq<ProtectedRange>)
    returns (ok: bool, pending': Protection, total': nat)
    requires Mapped(done, pending, total, other) && previous == if done == [] then None else Some(Last(done))
    ensures ok <==> ItemsOk(done + [item], other) && |CoordinatesOf(done + [item])| <= MAX_PROTECTED_LINES
    ensures ok ==> Mapped(done + [item], pending', total', other)
  {
    ok, pending', total' := false, pending, total;
    NextItem(done, item, other);
    if !RangeOk(item, other) || (previous.Some? && !ComesBefore(previous.value, item)) {
      return;
    }
    pending', total' := AddRange(pending, item.path, item.range.start, item.range.end, total, CoordinatesOf(done));
    ok := total' <= MAX_PROTECTED_LINES;
  }

  /** `_protected_line_map`: the ranges must be valid, strictly ascending, and not name too many
      lines; the map then has exactly their lines. */
  method ProtectedLineMap(items: seq<ProtectedRange>, other: char -> bool) returns (protection: Option<Protection>)
    ensures protection.Some? <==> ItemsOk(items, other) && |CoordinatesOf(items)| <= MAX_PROTECTED_LINES
    ensures protection.Some? ==> forall path, n: nat :: IsProtected(protection.value, path, n) <==> IsListed(items, path, n)
  {
    var previous: Option<ProtectedRange> := None;
    var pending: Protection := map[];
    var total: nat := 0;
    for i := 0 to |items|
      invariant Mapped(items[..i], pending, total, other) && previous == if i == 0 then None else Some(items[i - 1])
    {
      PrefixDecides(items, i + 1, other);
      FirstItems(items, i);
      var ok;
      ok, pending, total := AddItem(items[i], previous, pending, total, other, items[..i]);
      if !ok {
        return None;
      }
      previous := Some(items[i]);
    }
    assert items[..|items|] == items;
    forall path, n: nat ensures (path, n) in CoordinatesOf(items) <==> IsListed(items, path, n) {
      CoordinatesAreListed(items, path, n);
    }
    return Some(pending);
  }

  lemma {:induction false} FirstItems(items: seq<ProtectedRange>, i: nat)
    requires i < |items|
    ensures items[..i + 1] == items[..i] + [items[i]]
  {
  }

  // ----- the lines of the plan

  /** The plan deletes line `n` of the file. */
  predicate IsPlanned(plan: seq<ProtectedFile>, path: string, n: nat) {
    plan != [] && (IsPlanned(Front(plan), path, n) || (Last(plan).path == path && IsIn(Last(plan).ranges, n)))
  }

  predicate IsIn(ranges: seq<Range>, n: nat) { exists i :: 0 <= i < |ranges| && InRange(ranges[i], n) }

  /** The scan protects line `n` of an allowed file. */
  ghost predicate IsScanned(files: seq<AllowedFile>, find: string -> seq<Pairing.Marker>, path: string, n: nat) {
    files != [] &&
      (IsScanned(Front(files), find, path, n)
      || (Last(files).path == path && Last(files).text.Some? && Pairing.IsProtected(Scan(Last(files).text.value, find), n)))
  }

  lemma {:induction false} PlannedIsScanned(files: seq<AllowedFile>, find: string -> seq<Pairing.Marker>, plan: seq<ProtectedFile>,
      path: string, n: nat)
    requires PlanOf(files, find, plan)
    ensures IsPlanned(plan, path, n) <==> IsScanned(files, find, path, n)
  {
    if files != [] {
      var file := Last(files);
      if IsClean(file.text, find) {
        PlannedIsScanned(Front(files), find, plan, path, n);
        CleanIsUnprotected(file, find, n);
      } else {
        PlannedIsScanned(Front(files), find, Front(plan), path, n);
        assert IsIn(Last(plan).ranges, n) <==> InRanges(Last(plan).ranges, n);
      }
    }
  }

  lemma {:induction false} CleanIsUnprotected(file: AllowedFile, find: string -> seq<Pairing.Marker>, n: nat)
    requires IsClean(file.text, find)
    ensures file.text.Some? ==> !Pairing.IsProtected(Scan(file.text.value, find), n)
  {
  }

  /** A scanned line lies in a range that the scan reports, and the other way round. */
  lemma {:induction false} ScannedIsFound(files: seq<AllowedFile>, find: string -> seq<Pairing.Marker>, path: string, n: nat)
    ensures IsScanned(files, find, path, n) <==> exists r :: IsFound(files, find, path, r) && InRange(r, n)
  {
    if files != [] {
      var front, file := Front(files), Last(files);
      ScannedIsFound(front, find, path, n);
      forall r ensures IsFound(files, find, path, r) <==>
        IsFound(front, find, path, r) || (file.path == path && file.text.Some? && IsPairRange(file.text.value, find, r))
      {
        FoundMore(files, find, path, r);
      }
      if file.text.Some? {
        InPairRange(file.text.value, find, n);
      }
    }
  }

  lemma {:induction false} FoundMore(files: seq<AllowedFile>, find: string -> seq<Pairing.Marker>, path: string, r: Range)
    requires files != []
    ensures
      var front, file := Front(files), Last(files);
      IsFound(files, find, path, r) <==>
        IsFound(front, find, path, r) || (file.path == path && file.text.Some? && IsPairRange(file.text.value, find, r))
  {
    var front := Front(files);
    if IsFound(front, find, path, r) {
      var i :| 0 <= i < |front| && front[i].path == path && front[i].text.Some? && IsPairRange(front[i].text.value, find, r);
      assert files[i] == front[i];
    }
    if IsFound(files, find, path, r) {
      var i :| 0 <= i < |files| && files[i].path == path && files[i].text.Some? && IsPairRange(files[i].text.value, find, r);
      assert i < |front| ==> front[i] == files[i];
    }
  }

  /** The protected lines of a text are those in its pair ranges. */
  lemma {:induction false} InPairRange(text: string, find: string -> seq<Pairing.Marker>, n: nat)
    ensures Pairing.IsProtected(Scan(text, find), n) <==> exists r :: IsPairRange(text, find, r) && InRange(r, n)
  {
    var markers := Scan(text, find);
    if Pairing.IsProtected(markers, n) {
      var name, k :| 0 <= k < |Pairing.Fifo(markers, name).pairs| && Pairing.Covers(markers, name, k, n);
      var m := MatchesOf(markers, name)[k];
      assert m in MatchesOf(markers, name);
      assert HasPairRange(text, find, name, RangeOf(m)) && InRange(RangeOf(m), n);
    }
    if r :| IsPairRange(text, find, r) && InRange(r, n) {
      var name :| HasPairRange(text, find, name, r);
      var m :| m in MatchesOf(markers, name) && RangeOf(m) == r;
      var k :| 0 <= k < |MatchesOf(markers, name)| && MatchesOf(markers, name)[k] == m;
      IndicesInRange(markers, name);
      assert Pairing.Covers(markers, name, k, n);
    }
  }

  /** The items are the ranges the scan reports. */
  ghost predicate AreFound(items: seq<ProtectedRange>, files: seq<AllowedFile>, find: string -> seq<Pairing.Marker>) {
    forall path, r :: ProtectedRange(path, r) in items <==> IsFound(files, find, path, r)
  }

  /** The lines the redactor protects are exactly the lines the plan deletes. */
  lemma {:induction false} ListedIsPlanned(items: seq<ProtectedRange>, files: seq<AllowedFile>, find: string -> seq<Pairing.Marker>,
      plan: seq<ProtectedFile>, path: string, n: nat)
    requires AreFound(items, files, find) && PlanOf(files, find, plan)
    ensures IsListed(items, path, n) <==> IsPlanned(plan, path, n)
  {
    PlannedIsScanned(files, find, plan, path, n);
    ScannedIsFound(files, find, path, n);
    ListedMeans(items, path, n);
  }

  lemma {:induction false} ListedMeans(items: seq<ProtectedRange>, path: string, n: nat)
    ensures IsListed(items, path, n) <==> exists r :: ProtectedRange(path, r) in items && InRange(r, n)
  {
    if items != [] {
      ListedMeans(Front(items), path, n);
      assert items == Front(items) + [Last(items)];
      if IsListed(items, path, n) {
        if Last(items).path == path && InRange(Last(items).range, n) {
          assert ProtectedRange(path, Last(items).range) in items;
        }
      }
    }
  }

  // ----- the ranges of the scan are accepted

  function FileItems(path: string, ranges: seq<Range>): seq<ProtectedRange> {
    if ranges == [] then [] else FileItems(path, Front(ranges)) + [ProtectedRange(path, Last(ranges))]
  }

  /** All paths of the items come before the path. */
  predicate AllBefore(items: seq<ProtectedRange>, path: string) { items != [] ==> PathLess(Last(items).path, path) }

  predicate IsSpan(r: Range) { 1 <= r.start <= r.end }

  lemma {:induction false} FileItemsOk(items: seq<ProtectedRange>, path: string, ranges: seq<Range>, other: char -> bool)
    requires ItemsOk(items, other) && AllBefore(items, path) && IsRepositoryPath(path, other)
    requires StrictlySorted(ranges) && forall i :: 0 <= i < |ranges| ==> IsSpan(ranges[i])
    ensures ItemsOk(items + FileItems(path, ranges), other)
    ensures items + FileItems(path, ranges) != [] ==>
      Last(items + FileItems(path, ranges)) == if ranges == [] then Last(items) else ProtectedRange(path, Last(ranges))
  {
    if ranges == [] {
      assert items + FileItems(path, ranges) == items;
    } else {
      var front, last := Front(ranges), ProtectedRange(path, Last(ranges));
      assert forall i :: 0 <= i < |front| ==> front[i] == ranges[i];
      FileItemsOk(items, path, front, other);
      NextItem(items + FileItems(path, front), last, other);
      assert items + FileItems(path, ranges) == items + FileItems(path, front) + [last];
      assert IsSpan(ranges[|ranges| - 1]);
      if front != [] {
        assert Less(ranges[|ranges| - 2], ranges[|ranges| - 1]);
      }
    }
  }

  lemma {:induction false} FileItemsAre(path: string, ranges: seq<Range>, item: ProtectedRange)
    ensures item in FileItems(path, ranges) <==> item.path == path && item.range in ranges
  {
    if ranges != [] {
      FileItemsAre(path, Front(ranges), item);
      assert ranges == Front(ranges) + [Last(ranges)];
    }
  }

  /** A range of the scan is a span of lines counted from 1. */
  lemma {:induction false} PairRangeIsSpan(text: string, find: string -> seq<Pairing.Marker>, r: Range)
    requires IsPairRange(text, find, r)
    ensures IsSpan(r)
  {
    var markers := Scan(text, find);
    var name :| HasPairRange(text, find, name, r);
    var m :| m in MatchesOf(markers, name) && RangeOf(m) == r;
    var k :| 0 <= k < |MatchesOf(markers, name)| && MatchesOf(markers, name)[k] == m;
    Pairing.TagAllAscends(MarkersOf(LfLines(text), find));
    Pairing.FifoAscends(markers, name);
    assert Pairing.IsPair(Pairing.Fifo(markers, name).pairs[k], markers, name);
  }

  /** The paths are repository paths, any earlier before any later. */
  predicate PathsOk(files: seq<AllowedFile>, other: char -> bool) {
    && (forall i :: 0 <= i < |files| ==> IsRepositoryPath(files[i].path, other))
    && (forall i, j :: 0 <= i < j < |files| ==> PathLess(files[i].path, files[j].path))
  }

  /** The items so far are those of these files, all of their paths. */
  ghost predicate Scanned(items: seq<ProtectedRange>, files: seq<AllowedFile>, find: string -> seq<Pairing.Marker>, other: char -> bool) {
    && ItemsOk(items, other) && (items != [] ==> files != [] && Last(items).path in Paths(files))
    && AreFound(items, files, find)
  }

  function Paths(files: seq<AllowedFile>): set<string> { set i | 0 <= i < |files| :: files[i].path }

  lemma {:induction false} PathAhead(files: seq<AllowedFile>, i: nat, path: string, other: char -> bool)
    requires PathsOk(files, other) && i < |files| && path in Paths(files[..i])
    ensures PathLess(path, files[i].path)
  {
    var j :| 0 <= j < i && files[..i][j].path == path;
    assert files[..i][j] == files[j];
  }

  /** What one more file adds. */
  lemma {:induction false} ScanMore(items: seq<ProtectedRange>, files: seq<AllowedFile>, i: nat, ranges: seq<Range>,
      find: string -> seq<Pairing.Marker>, other: char -> bool)
    requires PathsOk(files, other) && i < |files| && Scanned(items, files[..i], find, other)
    requires StrictlySorted(ranges) && forall r :: r in ranges <==> files[i].text.Some? && IsPairRange(files[i].text.value, find, r)
    ensures Scanned(items + FileItems(files[i].path, ranges), files[..i + 1], find, other)
  {
    var file, more := files[i], items + FileItems(files[i].path, ranges);
    assert files[..i + 1] == files[..i] + [file];
    if items != [] {
      PathAhead(files, i, Last(items).path, other);
    }
    forall k | 0 <= k < |ranges| ensures IsSpan(ranges[k]) {
      assert ranges[k] in ranges;
      PairRangeIsSpan(file.text.value, find, ranges[k]);
    }
    FileItemsOk(items, file.path, ranges, other);
    LastPathIn(files, i, items, ranges);
    forall path, r ensures ProtectedRange(path, r) in more <==> IsFound(files[..i + 1], find, path, r) {
      FileItemsAre(file.path, ranges, ProtectedRange(path, r));
      assert Front(files[..i + 1]) == files[..i];
      FoundMore(files[..i + 1], find, path, r);
    }
  }

  lemma {:induction false} LastPathIn(files: seq<AllowedFile>, i: nat, items: seq<ProtectedRange>, ranges: seq<Range>)
    requires i < |files| && (items != [] ==> Last(items).path in Paths(files[..i]))
    ensures files[i].path in Paths(files[..i + 1]) && Paths(files[..i]) <= Paths(files[..i + 1])
  {
    assert files[..i + 1][i] == files[i];
    forall path | path in Paths(files[..i]) ensures path in Paths(files[..i + 1]) {
      var j :| 0 <= j < i && files[..i][j].path == path;
      assert files[..i + 1][j] == files[..i][j];
    }
  }

  /** `_scan_private_key_ranges` and `_unique_protected_ranges`: the distinct ranges of all files, nested and
      overlapping ones included, sorted. They are what the map of protected lines asks for. */
  method ScanProtectedRanges(files: seq<AllowedFile>, find: string -> seq<Pairing.Marker>, ghost other: char -> bool)
    returns (items: seq<ProtectedRange>)
    requires PathsOk(files, other)
    ensures ItemsOk(items, other) && AreFound(items, files, find)
  {
    items := [];
    assert AreFound([], files[..0], find);
    for i := 0 to |files|
      invariant Scanned(items, files[..i], find, other)
    {
      var ranges: seq<Range> := [];
      if files[i].text.Some? {
        ranges := FileRanges(files[i].text.value, find);
      }
      ScanMore(items, files, i, ranges, find, other);
      items := items + FileItems(files[i].path, ranges);
    }
    assert files[..|files|] == files;
  }

  method FileRanges(text: string, find: string -> seq<Pairing.Marker>) returns (ranges: seq<Range>)
    ensures StrictlySorted(ranges) && forall r :: r in ranges <==> IsPairRange(text, find, r)
  {
    var matches := PairedRanges(text, find);
    ranges := UniqueProtectedRanges(matches);
    forall r ensures r in ranges <==> IsPairRange(text, find, r) {
      MatchedRanges(matches, text, find, r);
    }
  }

  /** So the ranges of any scan give a map, unless they name too many lines. */
  method MapOfScan(files: seq<AllowedFile>, find: string -> seq<Pairing.Marker>, other: char -> bool)
    returns (items: seq<ProtectedRange>, protection: Option<Protection>)
    requires PathsOk(files, other)
    ensures AreFound(items, files, find)
    ensures protection.Some? <==> |CoordinatesOf(items)| <= MAX_PROTECTED_LINES
    ensures protection.Some? ==> forall path, n: nat :: IsProtected(protection.value, path, n) <==> IsListed(items, path, n)
  {
    items := ScanProtectedRanges(files, find, other);
    protection := ProtectedLineMap(items, other);
  }
}

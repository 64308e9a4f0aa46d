/** From marker pairs to the protected lines of a file, and the file without them. */
module PrivateKeyRanges {
  import opened LineSplitting
  import opened MarkerPairing

  predicate IsNewline(c: char) { c == '\n' }

  /** `_lf_lines`: split on LF alone, keeping it. */
  function LfLines(text: string): seq<string> { Lines(text, IsNewline) }

  /** A line without its LF. */
  function Content(line: string): string {
    if line != [] && Last(line) == '\n' then Front(line) else line
  }

  /** The markers of every line of a list of lines. */
  function MarkersOf(lines: seq<string>, find: string -> seq<Marker>): seq<seq<Marker>> {
    seq(|lines|, i requires 0 <= i < |lines| => find(Content(lines[i])))
  }

  function Scan(text: string, find: string -> seq<Marker>): seq<Tagged> {
    TagAll(MarkersOf(LfLines(text), find))
  }

  // ----- the scanner: one queue of waiting BEGIN lines a label

  datatype Match = Match(name: string, start: nat, end: nat)

  function Queue(unmatched: map<string, seq<nat>>, name: string): seq<nat> {
    if name in unmatched then unmatched[name] else []
  }

  function LineAt(markers: seq<Tagged>, k: nat): nat {
    if k < |markers| then markers[k].line else 0
  }

  function LinesAt(markers: seq<Tagged>, indices: seq<nat>): seq<nat> {
    seq(|indices|, i requires 0 <= i < |indices| => LineAt(markers, indices[i]))
  }

  function MatchesOf(markers: seq<Tagged>, name: string): seq<Match> {
    var pairs := Fifo(markers, name).pairs;
    seq(|pairs|, i requires 0 <= i < |pairs| => Match(name, LineAt(markers, pairs[i].begin), LineAt(markers, pairs[i].end)))
  }

  function OfName(matches: seq<Match>, name: string): seq<Match> {
    if matches == [] then []
    else OfName(Front(matches), name) + (if Last(matches).name == name then [Last(matches)] else [])
  }

  /** The scanner's queue and matches of one label are the FIFO pairing of what it has seen. */
  predicate Mirrors(seen: seq<Tagged>, unmatched: map<string, seq<nat>>, matches: seq<Match>, name: string) {
    && Queue(unmatched, name) == LinesAt(seen, Fifo(seen, name).waiting)
    && OfName(matches, name) == MatchesOf(seen, name)
  }

  lemma {:induction false} IndicesInRange(seen: seq<Tagged>, name: string)
    ensures forall i :: 0 <= i < |Fifo(seen, name).waiting| ==> Fifo(seen, name).waiting[i] < |seen|
    ensures forall i :: 0 <= i < |Fifo(seen, name).pairs| ==>
      Fifo(seen, name).pairs[i].begin < |seen| && Fifo(seen, name).pairs[i].end < |seen|
  {
    var f := Fifo(seen, name);
    EarliestBeginsMatched(seen, name);
    BeginsAscend(seen, name);
    StartsAt(f.pairs);
    FifoAscends(seen, name);
    forall i | 0 <= i < |f.waiting| ensures f.waiting[i] < |seen| {
      assert Begins(seen, name)[|f.pairs| + i] == f.waiting[i];
    }
    forall i | 0 <= i < |f.pairs| ensures f.pairs[i].begin < |seen| && f.pairs[i].end < |seen| {
      assert IsPair(f.pairs[i], seen, name);
    }
  }

  /** Old indices keep their lines when a marker is appended. */
  lemma {:induction false} LinesStay(seen: seq<Tagged>, t: Tagged, name: string)
    ensures LinesAt(seen + [t], Fifo(seen, name).waiting) == LinesAt(seen, Fifo(seen, name).waiting)
    ensures
      var pairs := Fifo(seen, name).pairs;
      forall i :: 0 <= i < |pairs| ==>
        LineAt(seen + [t], pairs[i].begin) == LineAt(seen, pairs[i].begin) && LineAt(seen + [t], pairs[i].end) == LineAt(seen, pairs[i].end)
  {
    IndicesInRange(seen, name);
  }

  lemma {:induction false} MirrorBegin(seen: seq<Tagged>, t: Tagged, unmatched: map<string, seq<nat>>, matches: seq<Match>, name: string)
    requires t.marker.Begin? && Mirrors(seen, unmatched, matches, name)
    ensures Mirrors(seen + [t], unmatched[t.marker.name := Queue(unmatched, t.marker.name) + [t.line]], matches, name)
  {
    assert Front(seen + [t]) == seen;
    LinesStay(seen, t, name);
  }

  lemma {:induction false} MirrorMatch(seen: seq<Tagged>, t: Tagged, unmatched: map<string, seq<nat>>, matches: seq<Match>, name: string)
    requires t.marker.End? && Mirrors(seen, unmatched, matches, name)
    requires Queue(unmatched, t.marker.name) != []
    ensures
      var queue := Queue(unmatched, t.marker.name);
      Mirrors(seen + [t], unmatched[t.marker.name := queue[1..]], matches + [Match(t.marker.name, queue[0], t.line)], name)
  {
    var queue := Queue(unmatched, t.marker.name);
    var more := matches + [Match(t.marker.name, queue[0], t.line)];
    assert Front(seen + [t]) == seen && Front(more) == matches;
    LinesStay(seen, t, name);
  }

  lemma {:induction false} MirrorSkip(seen: seq<Tagged>, t: Tagged, unmatched: map<string, seq<nat>>, matches: seq<Match>, name: string)
    requires t.marker.End? && Mirrors(seen, unmatched, matches, name)
    requires t.marker.name == name ==> Queue(unmatched, name) == []
    ensures Mirrors(seen + [t], unmatched, matches, name)
  {
    assert Front(seen + [t]) == seen;
    LinesStay(seen, t, name);
  }

  /** One marker of the scan. */
  method ScanMarker(line: nat, marker: Marker, unmatched: map<string, seq<nat>>, matches: seq<Match>, ghost seen: seq<Tagged>)
    returns (unmatched': map<string, seq<nat>>, matches': seq<Match>)
    requires forall name :: Mirrors(seen, unmatched, matches, name)
    ensures forall name :: Mirrors(seen + [Tagged(line, marker)], unmatched', matches', name)
  {
    ghost var t := Tagged(line, marker);
    unmatched', matches' := unmatched, matches;
    if marker.Begin? {
      unmatched' := unmatched[marker.name := Queue(unmatched, marker.name) + [line]];
      forall name ensures Mirrors(seen + [t], unmatched', matches', name) {
        MirrorBegin(seen, t, unmatched, matches, name);
      }
    } else if Queue(unmatched, marker.name) != [] {
      var queue := unmatched[marker.name];
      matches' := matches + [Match(marker.name, queue[0], line)];
      unmatched' := unmatched[marker.name := queue[1..]];
      forall name ensures Mirrors(seen + [t], unmatched', matches', name) {
        MirrorMatch(seen, t, unmatched, matches, name);
      }
    } else {
      forall name ensures Mirrors(seen + [t], unmatched', matches', name) {
        MirrorSkip(seen, t, unmatched, matches, name);
      }
    }
  }

  /** `_paired_ranges`, before its matches are sorted: for every label exactly the FIFO pairs. */
  method PairedRanges(text: string, find: string -> seq<Marker>) returns (matches: seq<Match>)
    ensures forall name :: OfName(matches, name) == MatchesOf(Scan(text, find), name)
  {
    var lines := LfLines(text);
    ghost var all := MarkersOf(lines, find);
    ghost var seen: seq<Tagged> := [];
    var unmatched: map<string, seq<nat>> := map[];
    matches := [];
    for i := 0 to |lines|
      invariant seen == TagAll(all[..i])
      invariant forall name :: Mirrors(seen, unmatched, matches, name)
    {
      var found := find(Content(lines[i]));
      ghost var before := seen;
      for j := 0 to |found|
        invariant seen == before + Tag(i + 1, found[..j])
        invariant forall name :: Mirrors(seen, unmatched, matches, name)
      {
        unmatched, matches := ScanMarker(i + 1, found[j], unmatched, matches, seen);
        assert Front(found[..j + 1]) == found[..j];
        seen := seen + [Tagged(i + 1, found[j])];
      }
      assert found[..|found|] == found;
      assert Front(all[..i + 1]) == all[..i] && Last(all[..i + 1]) == found;
    }
    assert all[..|lines|] == all;
    forall name ensures OfName(matches, name) == MatchesOf(Scan(text, find), name) {
      assert Mirrors(seen, unmatched, matches, name);
    }
  }

  // ----- protected ranges

  datatype Range = Range(start: nat, end: nat)

  predicate InRange(r: Range, n: nat) { r.start <= n <= r.end }

  ghost predicate InRanges(ranges: seq<Range>, n: nat) {
    exists i :: 0 <= i < |ranges| && InRange(ranges[i], n)
  }

  function RangeOf(m: Match): Range { Range(m.start, m.end) }

  lemma {:induction false} InOfName(matches: seq<Match>, name: string, m: Match)
    ensures m in OfName(matches, name) <==> m in matches && m.name == name
  {
    if matches != [] {
      InOfName(Front(matches), name, m);
    }
  }

  /** The matches cover exactly the protected lines. */
  lemma {:induction false} MatchesCover(matches: seq<Match>, markers: seq<Tagged>, n: nat)
    requires forall name :: OfName(matches, name) == MatchesOf(markers, name)
    ensures IsProtected(markers, n) <==> exists m :: m in matches && InRange(RangeOf(m), n)
  {
    if IsProtected(markers, n) {
      var name, k :| 0 <= k < |Fifo(markers, name).pairs| && Covers(markers, name, k, n);
      var m := MatchesOf(markers, name)[k];
      InOfName(matches, name, m);
      assert m in OfName(matches, name) && InRange(RangeOf(m), n);
    }
    if m :| m in matches && InRange(RangeOf(m), n) {
      InOfName(matches, m.name, m);
      var k :| 0 <= k < |MatchesOf(markers, m.name)| && MatchesOf(markers, m.name)[k] == m;
      IndicesInRange(markers, m.name);
      assert Covers(markers, m.name, k, n);
    }
  }

  predicate Less(a: Range, b: Range) {
    a.start < b.start || (a.start == b.start && a.end < b.end)
  }

  predicate StrictlySorted(ranges: seq<Range>) {
    forall i, j :: 0 <= i < j < |ranges| ==> Less(ranges[i], ranges[j])
  }

  /** `_unique_protected_ranges` for one path: the distinct coordinates in ascending order. */
  method UniqueProtectedRanges(matches: seq<Match>) returns (ranges: seq<Range>)
    ensures StrictlySorted(ranges)
    ensures forall r :: r in ranges <==> exists m :: m in matches && RangeOf(m) == r
  {
    ranges := [];
    for i := 0 to |matches|
      invariant StrictlySorted(ranges)
      invariant forall r :: r in ranges <==> exists m :: m in matches[..i] && RangeOf(m) == r
    {
      ghost var before := ranges;
      ranges := InsertRange(ranges, RangeOf(matches[i]));
      assert matches[..i + 1] == matches[..i] + [matches[i]];
      forall r ensures r in ranges <==> exists m :: m in matches[..i + 1] && RangeOf(m) == r {
        if r == RangeOf(matches[i]) {
          assert matches[i] in matches[..i + 1];
        }
        if r in before {
          var m :| m in matches[..i] && RangeOf(m) == r;
          assert m in matches[..i + 1];
        }
      }
    }
    assert matches[..|matches|] == matches;
  }

  /** Insertion into a strictly sorted sequence; a range already there is not repeated. */
  function InsertRange(ranges: seq<Range>, r: Range): (out: seq<Range>)
    requires StrictlySorted(ranges)
    ensures StrictlySorted(out)
    ensures forall x :: x in out <==> x in ranges || x == r
  {
    if ranges == [] then [r]
    else if r == ranges[0] then ranges
    else if Less(r, ranges[0]) then [r] + ranges
    else
      var rest := InsertRange(ranges[1..], r);
      assert forall x :: x in rest ==> Less(ranges[0], x) by {
        assert forall x :: x in ranges[1..] ==> exists j :: 1 <= j < |ranges| && ranges[j] == x;
      }
      assert forall x :: x in ranges <==> x == ranges[0] || x in ranges[1..];
      [ranges[0]] + rest
  }

  /** Ranges in ascending order with at least one line between neighbours. */
  predicate Separated(ranges: seq<Range>) {
    ranges != [] ==>
      var front, last := Front(ranges), Last(ranges);
      && Separated(front)
      && last.start <= last.end
      && (front != [] ==> Last(front).end + 1 < last.start)
  }

  /** Any two ranges are apart, not only neighbours. */
  lemma {:induction false} SeparatedApart(ranges: seq<Range>, i: nat, j: nat)
    requires Separated(ranges) && i <= j < |ranges|
    ensures if i < j then ranges[i].end + 1 < ranges[j].start else ranges[i].start <= ranges[i].end
  {
    if j < |ranges| - 1 {
      SeparatedApart(Front(ranges), i, j);
    } else if i < j {
      SeparatedApart(Front(ranges), i, j - 1);
      SeparatedApart(Front(ranges), j - 1, j - 1);
    }
  }

  /** `_coalesce_ranges` for one path: touching and overlapping ranges are merged, and no line is
      gained or lost. */
  method CoalesceRanges(ranges: seq<Range>) returns (merged: seq<Range>)
    requires StrictlySorted(ranges) && forall i :: 0 <= i < |ranges| ==> ranges[i].start <= ranges[i].end
    ensures Separated(merged)
    ensures forall n: nat :: InRanges(merged, n) <==> InRanges(ranges, n)
  {
    merged := [];
    for i := 0 to |ranges|
      invariant Separated(merged)
      invariant merged != [] ==> i > 0 && Last(merged).start <= ranges[i - 1].start
      invariant forall n: nat :: InRanges(merged, n) <==> InRanges(ranges[..i], n)
    {
      var item := ranges[i];
      FirstLines(ranges, i);
      if merged != [] && item.start <= Last(merged).end + 1 {
        var current := Last(merged);
        Widened(merged, item);
        merged := Front(merged) + [Joined(current, item)];
      } else {
        Appended(merged, item);
        merged := merged + [item];
      }
    }
    assert ranges[..|ranges|] == ranges;
  }

  /** One range for two that touch or overlap, `r` not starting before `current`. */
  function Joined(current: Range, r: Range): Range { Range(current.start, if current.end < r.end then r.end else current.end) }

  lemma {:induction false} Widened(ranges: seq<Range>, r: Range)
    requires Separated(ranges) && ranges != [] && r.start <= r.end && Last(ranges).start <= r.start <= Last(ranges).end + 1
    ensures
      var merged := Front(ranges) + [Joined(Last(ranges), r)];
      Separated(merged) && forall n: nat :: InRanges(merged, n) <==> InRanges(ranges, n) || InRange(r, n)
  {
    var merged := Front(ranges) + [Joined(Last(ranges), r)];
    forall n: nat ensures InRanges(merged, n) <==> InRanges(ranges, n) || InRange(r, n) {
      InRangesLast(ranges, n);
      InRangesLast(merged, n);
    }
  }

  lemma {:induction false} Appended(ranges: seq<Range>, r: Range)
    requires Separated(ranges) && r.start <= r.end && (ranges != [] ==> Last(ranges).end + 1 < r.start)
    ensures Separated(ranges + [r]) && forall n: nat :: InRanges(ranges + [r], n) <==> InRanges(ranges, n) || InRange(r, n)
  {
    assert Front(ranges + [r]) == ranges;
    forall n: nat ensures InRanges(ranges + [r], n) <==> InRanges(ranges, n) || InRange(r, n) {
      InRangesLast(ranges + [r], n);
    }
  }

  lemma {:induction false} FirstLines(ranges: seq<Range>, i: nat)
    requires i < |ranges|
    ensures forall n: nat :: InRanges(ranges[..i + 1], n) <==> InRanges(ranges[..i], n) || InRange(ranges[i], n)
  {
    assert Front(ranges[..i + 1]) == ranges[..i];
    forall n: nat ensures InRanges(ranges[..i + 1], n) <==> InRanges(ranges[..i], n) || InRange(ranges[i], n) {
      InRangesLast(ranges[..i + 1], n);
    }
  }

  lemma {:induction false} InRangesLast(ranges: seq<Range>, n: nat)
    requires ranges != []
    ensures InRanges(ranges, n) <==> InRanges(Front(ranges), n) || InRange(Last(ranges), n)
  {
    if InRanges(Front(ranges), n) {
      var i :| 0 <= i < |ranges| - 1 && InRange(Front(ranges)[i], n);
      assert InRange(ranges[i], n);
    }
    if i :| 0 <= i < |ranges| && InRange(ranges[i], n) {
      assert i < |ranges| - 1 ==> InRange(Front(ranges)[i], n);
    }
  }

  /** A set of lines has only one separated description, so coalescing is canonical. */
  lemma {:induction false} SeparatedIsCanonical(a: seq<Range>, b: seq<Range>)
    requires Separated(a) && Separated(b)
    requires forall n: nat :: InRanges(a, n) <==> InRanges(b, n)
    ensures a == b
    decreases |a|
  {
    if a == [] {
      if b != [] {
        LastLine(b);
        assert false;
      }
    } else if b == [] {
      LastLine(a);
      assert false;
    } else {
      LastLine(a);
      LastLine(b);
      assert Last(a).end == Last(b).end;
      LastGap(a);
      LastGap(b);
      forall n: nat ensures InRanges(Front(a), n) <==> InRanges(Front(b), n) {
        InRangesLast(a, n);
        InRangesLast(b, n);
      }
      SeparatedIsCanonical(Front(a), Front(b));
    }
  }

  lemma {:induction false} LastLine(ranges: seq<Range>)
    requires Separated(ranges) && ranges != []
    ensures InRanges(ranges, Last(ranges).end)
    ensures forall n: nat :: InRanges(ranges, n) ==> n <= Last(ranges).end
  {
    assert InRange(ranges[|ranges| - 1], Last(ranges).end);
    forall n: nat | InRanges(ranges, n) ensures n <= Last(ranges).end {
      var i :| 0 <= i < |ranges| && InRange(ranges[i], n);
      SeparatedApart(ranges, i, |ranges| - 1);
    }
  }

  lemma {:induction false} LastGap(ranges: seq<Range>)
    requires Separated(ranges) && ranges != []
    ensures forall n: nat :: Last(ranges).start <= n <= Last(ranges).end ==> InRanges(ranges, n)
    ensures Last(ranges).start > 0 ==> !InRanges(ranges, Last(ranges).start - 1)
    ensures forall n: nat :: InRanges(Front(ranges), n) ==> n + 1 < Last(ranges).start
  {
    forall n: nat | Last(ranges).start <= n <= Last(ranges).end ensures InRanges(ranges, n) {
      assert InRange(ranges[|ranges| - 1], n);
    }
    forall n: nat | InRanges(Front(ranges), n) ensures n + 1 < Last(ranges).start {
      var i :| 0 <= i < |ranges| - 1 && InRange(Front(ranges)[i], n);
      SeparatedApart(ranges, i, |ranges| - 1);
    }
    if Last(ranges).start > 0 {
      InRangesLast(ranges, Last(ranges).start - 1);
    }
  }

  // ----- the file without its protected lines

  function LineSet(ranges: seq<Range>): (r: set<nat>)
    ensures forall n: nat :: n in r <==> InRanges(ranges, n)
  {
    if ranges == [] then {}
    else
      var rest, last := LineSet(Front(ranges)), Last(ranges);
      assert forall n: nat :: InRanges(ranges, n) <==> InRanges(Front(ranges), n) || InRange(last, n) by {
        forall n: nat ensures InRanges(ranges, n) <==> InRanges(Front(ranges), n) || InRange(last, n) {
          InRangesLast(ranges, n);
        }
      }
      rest + set n: nat | n <= last.end && InRange(last, n)
  }

  /** `_remove_ranges` */
  function RemoveRanges(text: string, ranges: seq<Range>): string {
    Flatten(Kept(LfLines(text), LineSet(ranges)))
  }

  lemma {:induction false} KeptWellSplit(lines: seq<string>, removed: set<nat>)
    requires WellSplit(lines, IsNewline)
    ensures WellSplit(Kept(lines, removed), IsNewline)
  {
    var kept := Kept(lines, removed);
    forall i | 0 <= i < |kept| ensures IsLine(kept[i], IsNewline) {
      var a, b := KeptEmbeds(lines, removed, i, i);
    }
    forall i | 0 <= i < |kept| - 1 ensures IsNewline(Last(kept[i])) {
      var a, b := KeptEmbeds(lines, removed, i, i + 1);
    }
  }

  /** The lines of the sanitised file are the kept lines of the original. */
  lemma {:induction false} RemovedLines(text: string, ranges: seq<Range>)
    ensures LfLines(RemoveRanges(text, ranges)) == Kept(LfLines(text), LineSet(ranges))
  {
    LinesSound(text, IsNewline);
    KeptWellSplit(LfLines(text), LineSet(ranges));
    LinesUnique(Kept(LfLines(text), LineSet(ranges)), IsNewline);
  }

  lemma {:induction false} MarkersOfKept(lines: seq<string>, removed: set<nat>, find: string -> seq<Marker>)
    ensures MarkersOf(Kept(lines, removed), find) == Kept(MarkersOf(lines, find), removed)
  {
    if lines != [] {
      MarkersOfKept(Front(lines), removed, find);
      assert Front(MarkersOf(lines, find)) == MarkersOf(Front(lines), find);
    }
  }

  /** The lines named by `ranges` are exactly the protected lines of the file. */
  ghost predicate CoversProtected(text: string, ranges: seq<Range>, find: string -> seq<Marker>) {
    forall n: nat :: InRanges(ranges, n) <==> IsProtected(Scan(text, find), n)
  }

  /** A file without its protected lines holds no pair of any label. */
  lemma {:induction false} SanitisedHasNoPair(text: string, ranges: seq<Range>, find: string -> seq<Marker>, name: string)
    requires CoversProtected(text, ranges, find)
    ensures Fifo(Scan(RemoveRanges(text, ranges), find), name).pairs == []
  {
    RemovedLines(text, ranges);
    MarkersOfKept(LfLines(text), LineSet(ranges), find);
    NoPairAfterRemoval(MarkersOf(LfLines(text), find), LineSet(ranges), name);
  }

  ghost predicate HasPairedMaterial(text: string, find: string -> seq<Marker>) {
    exists name :: Fifo(Scan(text, find), name).pairs != []
  }

  /** The pair check of `_validate_final_changed_files` on one file. */
  method ValidateFinalFile(text: string, find: string -> seq<Marker>) returns (ok: bool)
    ensures ok <==> !HasPairedMaterial(text, find)
  {
    var matches := PairedRanges(text, find);
    ok := matches == [];
    if ok {
      forall name ensures Fifo(Scan(text, find), name).pairs == [] {
        assert OfName(matches, name) == MatchesOf(Scan(text, find), name);
      }
    } else {
      InOfName(matches, matches[0].name, matches[0]);
      assert Fifo(Scan(text, find), matches[0].name).pairs != [];
    }
  }

  lemma {:induction false} MatchesAscend(matches: seq<Match>, markers: seq<Tagged>, m: Match)
    requires Ascending(markers) && forall name :: OfName(matches, name) == MatchesOf(markers, name)
    requires m in matches
    ensures m.start <= m.end
  {
    InOfName(matches, m.name, m);
    var k :| 0 <= k < |MatchesOf(markers, m.name)| && MatchesOf(markers, m.name)[k] == m;
    FifoAscends(markers, m.name);
    assert IsPair(Fifo(markers, m.name).pairs[k], markers, m.name);
  }

  /** Scan, unique, coalesce, remove: the deterministic result keeps every unprotected line, and
      the final pair check accepts it. */
  method SanitizeFile(text: string, find: string -> seq<Marker>) returns (clean: string, ranges: seq<Range>)
    ensures Separated(ranges) && CoversProtected(text, ranges, find)
    ensures clean == RemoveRanges(text, ranges) && LfLines(clean) == Kept(LfLines(text), LineSet(ranges))
    ensures !HasPairedMaterial(clean, find)
    ensures !HasPairedMaterial(text, find) ==> clean == text
  {
    var matches := PairedRanges(text, find);
    var unique := UniqueProtectedRanges(matches);
    ghost var markers := Scan(text, find);
    TagAllAscends(MarkersOf(LfLines(text), find));
    forall i | 0 <= i < |unique| ensures unique[i].start <= unique[i].end {
      assert unique[i] in unique;
      var m :| m in matches && RangeOf(m) == unique[i];
      MatchesAscend(matches, markers, m);
    }
    ranges := CoalesceRanges(unique);
    forall n: nat ensures InRanges(unique, n) <==> IsProtected(markers, n) {
      MatchesCover(matches, markers, n);
      if IsProtected(markers, n) {
        var m :| m in matches && InRange(RangeOf(m), n);
        assert RangeOf(m) in unique;
        var i :| 0 <= i < |unique| && unique[i] == RangeOf(m);
        assert InRange(unique[i], n);
      }
      if i :| 0 <= i < |unique| && InRange(unique[i], n) {
        assert unique[i] in unique;
      }
    }
    clean := RemoveRanges(text, ranges);
    RemovedLines(text, ranges);
    forall name ensures Fifo(Scan(clean, find), name).pairs == [] {
      SanitisedHasNoPair(text, ranges, find, name);
    }
    if !HasPairedMaterial(text, find) {
      assert forall n: nat :: !IsProtected(markers, n);
      NothingRemoved(LfLines(text), LineSet(ranges));
      LinesSound(text, IsNewline);
    }
  }

  lemma {:induction false} NothingRemoved<T>(items: seq<T>, removed: set<nat>)
    requires removed == {}
    ensures Kept(items, removed) == items
  {
    if items != [] {
      NothingRemoved(Front(items), removed);
    }
  }
}

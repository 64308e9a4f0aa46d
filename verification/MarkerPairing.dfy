/** First-in-first-out pairing of private-key markers, label by label.

    What a marker is in a line of text is left to a function from lines to marker
    sequences; everything here holds for every such function. */
module MarkerPairing {
  import opened LineSplitting

  datatype Marker = Begin(name: string) | End(name: string)

  /** A marker and the number of the line it stands on, counted from 1. */
  datatype Tagged = Tagged(line: nat, marker: Marker)

  function Tag(line: nat, markers: seq<Marker>): seq<Tagged> {
    if markers == [] then [] else Tag(line, Front(markers)) + [Tagged(line, Last(markers))]
  }

  /** All markers of a file in reading order. */
  function TagAll(lines: seq<seq<Marker>>): seq<Tagged> {
    if lines == [] then [] else TagAll(Front(lines)) + Tag(|lines|, Last(lines))
  }

  // ----- FIFO pairing of one name

  datatype Pair = Pair(begin: nat, end: nat)

  /** Indices of paired markers in the order of their ENDs, and of BEGINs still waiting. */
  datatype Pairing = Pairing(pairs: seq<Pair>, waiting: seq<nat>)

  function Fifo(markers: seq<Tagged>, name: string): Pairing {
    if markers == [] then Pairing([], [])
    else
      var before, k := Fifo(Front(markers), name), |markers| - 1;
      if Last(markers).marker == Begin(name) then
        before.(waiting := before.waiting + [k])
      else if Last(markers).marker == End(name) && before.waiting != [] then
        Pairing(before.pairs + [Pair(before.waiting[0], k)], before.waiting[1..])
      else before
  }

  /** The indices of all BEGINs of the label, ascending. */
  function Begins(markers: seq<Tagged>, name: string): seq<nat> {
    if markers == [] then []
    else if Last(markers).marker == Begin(name) then Begins(Front(markers), name) + [|markers| - 1]
    else Begins(Front(markers), name)
  }

  lemma {:induction false} BeginsAreAll(markers: seq<Tagged>, name: string)
    ensures forall k: nat :: k in Begins(markers, name) <==> k < |markers| && markers[k].marker == Begin(name)
  {
    if markers != [] {
      BeginsAreAll(Front(markers), name);
      var before, n: nat := Begins(Front(markers), name), |markers| - 1;
      assert forall k: nat :: k in before + [n] <==> k in before || k == n;
    }
  }

  lemma {:induction false} BeginsAscend(markers: seq<Tagged>, name: string)
    ensures forall a, b :: 0 <= a < b < |Begins(markers, name)| ==> Begins(markers, name)[a] < Begins(markers, name)[b]
    ensures forall a :: 0 <= a < |Begins(markers, name)| ==> Begins(markers, name)[a] < |markers|
  {
    if markers != [] {
      BeginsAscend(Front(markers), name);
    }
  }

  function Starts(pairs: seq<Pair>): seq<nat> {
    if pairs == [] then [] else Starts(Front(pairs)) + [Last(pairs).begin]
  }

  /** The matched BEGINs are exactly the earliest ones, in order; the others are waiting. */
  lemma {:induction false} EarliestBeginsMatched(markers: seq<Tagged>, name: string)
    ensures
      var f := Fifo(markers, name);
      Starts(f.pairs) + f.waiting == Begins(markers, name)
  {
    if markers != [] {
      EarliestBeginsMatched(Front(markers), name);
      var before, f := Fifo(Front(markers), name), Fifo(markers, name);
      if Last(markers).marker == Begin(name) {
        assert Starts(before.pairs) + f.waiting == Begins(Front(markers), name) + [|markers| - 1];
      } else if Last(markers).marker == End(name) && before.waiting != [] {
        assert Front(f.pairs) == before.pairs;
        assert before.waiting == [before.waiting[0]] + before.waiting[1..];
        assert Starts(f.pairs) == Starts(before.pairs) + [before.waiting[0]];
      }
    }
  }

  lemma {:induction false} StartsAt(pairs: seq<Pair>)
    ensures |Starts(pairs)| == |pairs|
    ensures forall k :: 0 <= k < |pairs| ==> Starts(pairs)[k] == pairs[k].begin
  {
    if pairs != [] {
      StartsAt(Front(pairs));
    }
  }

  /** `pairs` matches BEGINs of the label with later ENDs, using no marker twice. */
  ghost predicate IsMatching(pairs: set<Pair>, markers: seq<Tagged>, name: string) {
    && (forall p :: p in pairs ==> IsPair(p, markers, name))
    && (forall p, q :: p in pairs && q in pairs && (p.begin == q.begin || p.end == q.end) ==> p == q)
  }

  predicate IsPair(p: Pair, markers: seq<Tagged>, name: string) {
    p.begin < p.end < |markers| && markers[p.begin].marker == Begin(name) && markers[p.end].marker == End(name)
  }

  /** The FIFO pairs are such a matching: their ENDs ascend and their BEGINs ascend. */
  lemma {:induction false} FifoAscends(markers: seq<Tagged>, name: string)
    ensures
      var pairs := Fifo(markers, name).pairs;
      && (forall k :: 0 <= k < |pairs| ==> IsPair(pairs[k], markers, name))
      && (forall a, b :: 0 <= a < b < |pairs| ==> pairs[a].begin < pairs[b].begin && pairs[a].end < pairs[b].end)
  {
    if markers != [] {
      FifoAscends(Front(markers), name);
      EarliestBeginsMatched(markers, name);
      BeginsAscend(markers, name);
      var before, f := Fifo(Front(markers), name), Fifo(markers, name);
      StartsAt(f.pairs);
      forall k | 0 <= k < |f.pairs| ensures IsPair(f.pairs[k], markers, name) {
        if k < |before.pairs| {
          assert f.pairs[k] == before.pairs[k] && IsPair(before.pairs[k], Front(markers), name);
        } else {
          NextWaits(Front(markers), name);
        }
      }
      forall a, b | 0 <= a < b < |f.pairs|
        ensures f.pairs[a].begin < f.pairs[b].begin && f.pairs[a].end < f.pairs[b].end
      {
        assert Begins(markers, name)[a] == f.pairs[a].begin && Begins(markers, name)[b] == f.pairs[b].begin;
        assert f.pairs[a] == before.pairs[a] && IsPair(before.pairs[a], Front(markers), name);
      }
    }
  }

  lemma {:induction false} NextWaits(markers: seq<Tagged>, name: string)
    requires Fifo(markers, name).waiting != []
    ensures var k := Fifo(markers, name).waiting[0]; k < |markers| && markers[k].marker == Begin(name)
  {
    var f := Fifo(markers, name);
    EarliestBeginsMatched(markers, name);
    BeginsAreAll(markers, name);
    assert f.waiting[0] in Starts(f.pairs) + f.waiting;
  }

  /** A set of pairs with distinct BEGINs below `bound` has no more pairs than there are BEGINs. */
  lemma {:induction false} NoMorePairsThanBegins(pairs: set<Pair>, markers: seq<Tagged>, name: string, bound: nat)
    requires IsMatching(pairs, markers, name) && bound <= |markers|
    requires forall p :: p in pairs ==> p.begin < bound
    ensures |pairs| <= |Begins(markers[..bound], name)|
    decreases bound
  {
    if bound == 0 {
      assert pairs == {};
    } else {
      assert Front(markers[..bound]) == markers[..bound - 1];
      if p :| p in pairs && p.begin == bound - 1 {
        NoMorePairsThanBegins(pairs - {p}, markers, name, bound - 1);
      } else {
        NoMorePairsThanBegins(pairs, markers, name, bound - 1);
      }
    }
  }

  /** A matching that does not use the last marker is one of the markers before it. */
  lemma {:induction false} StillMatching(pairs: set<Pair>, markers: seq<Tagged>, name: string)
    requires markers != [] && forall p :: p in pairs ==> IsPair(p, markers, name) && p.end < |markers| - 1
    requires forall p, q :: p in pairs && q in pairs && (p.begin == q.begin || p.end == q.end) ==> p == q
    ensures IsMatching(pairs, Front(markers), name)
  {
  }

  /** FIFO is optimal: no matching of the label has more pairs. */
  lemma {:induction false} FifoIsMaximum(pairs: set<Pair>, markers: seq<Tagged>, name: string)
    requires IsMatching(pairs, markers, name)
    ensures |pairs| <= |Fifo(markers, name).pairs|
    decreases |markers|
  {
    if markers == [] {
      assert pairs == {};
    } else {
      var before, k := Front(markers), |markers| - 1;
      var f := Fifo(before, name);
      if Last(markers).marker == End(name) && f.waiting == [] {
        EarliestBeginsMatched(before, name);
        StartsAt(f.pairs);
        assert markers[..k] == before;
        NoMorePairsThanBegins(pairs, markers, name, k);
      } else if p :| p in pairs && p.end == k {
        StillMatching(pairs - {p}, markers, name);
        FifoIsMaximum(pairs - {p}, before, name);
      } else {
        StillMatching(pairs, markers, name);
        FifoIsMaximum(pairs, before, name);
      }
    }
  }

  // ----- what pairing leaves behind

  predicate IsBeginOf(pairs: seq<Pair>, i: nat) { exists k :: 0 <= k < |pairs| && pairs[k].begin == i }
  predicate IsEndOf(pairs: seq<Pair>, j: nat) { exists k :: 0 <= k < |pairs| && pairs[k].end == j }

  /** Of a BEGIN and a later END of one label, at least one is paired. */
  lemma {:induction false} OneIsPaired(markers: seq<Tagged>, name: string, i: nat, j: nat)
    requires i < j < |markers| && markers[i].marker == Begin(name) && markers[j].marker == End(name)
    ensures IsBeginOf(Fifo(markers, name).pairs, i) || IsEndOf(Fifo(markers, name).pairs, j)
    decreases |markers|
  {
    var before, f := Fifo(Front(markers), name), Fifo(markers, name);
    assert before.pairs <= f.pairs;
    if j < |markers| - 1 {
      OneIsPaired(Front(markers), name, i, j);
      if k :| 0 <= k < |before.pairs| && before.pairs[k].begin == i {
        assert f.pairs[k].begin == i;
      } else {
        var k :| 0 <= k < |before.pairs| && before.pairs[k].end == j;
        assert f.pairs[k].end == j;
      }
    } else if before.waiting == [] {
      EarliestBeginsMatched(Front(markers), name);
      BeginsAreAll(Front(markers), name);
      StartsAt(before.pairs);
      assert i in Begins(Front(markers), name);
    } else {
      assert f.pairs[|before.pairs|].end == j;
    }
  }

  /** There is a pair exactly when some BEGIN stands before an END of its label. */
  lemma {:induction false} PairedIffBeginBeforeEnd(markers: seq<Tagged>, name: string)
    ensures Fifo(markers, name).pairs != [] <==>
      (exists i, j :: 0 <= i < j < |markers| && markers[i].marker == Begin(name) && markers[j].marker == End(name))
  {
    if Fifo(markers, name).pairs != [] {
      FifoAscends(markers, name);
      assert IsPair(Fifo(markers, name).pairs[0], markers, name);
    }
    if i, j :| 0 <= i < j < |markers| && markers[i].marker == Begin(name) && markers[j].marker == End(name) {
      OneIsPaired(markers, name, i, j);
    }
  }

  // ----- protected lines

  /** Line `n` lies between the lines of some matched BEGIN and END. */
  ghost predicate IsProtected(markers: seq<Tagged>, n: nat) {
    exists name, k :: 0 <= k < |Fifo(markers, name).pairs| && Covers(markers, name, k, n)
  }

  predicate Covers(markers: seq<Tagged>, name: string, k: nat, n: nat) {
    var pairs := Fifo(markers, name).pairs;
    && k < |pairs| && pairs[k].begin < |markers| && pairs[k].end < |markers|
    && markers[pairs[k].begin].line <= n <= markers[pairs[k].end].line
  }

  predicate Ascending(markers: seq<Tagged>) {
    forall i, j :: 0 <= i <= j < |markers| ==> markers[i].line <= markers[j].line
  }

  lemma {:induction false} TagKeeps(line: nat, markers: seq<Marker>)
    ensures |Tag(line, markers)| == |markers|
    ensures forall k :: 0 <= k < |markers| ==> Tag(line, markers)[k] == Tagged(line, markers[k])
  {
    if markers != [] {
      TagKeeps(line, Front(markers));
    }
  }

  lemma {:induction false} TagAllAscends(lines: seq<seq<Marker>>)
    ensures Ascending(TagAll(lines))
    ensures forall k :: 0 <= k < |TagAll(lines)| ==> 1 <= TagAll(lines)[k].line <= |lines|
  {
    if lines != [] {
      TagAllAscends(Front(lines));
      TagKeeps(|lines|, Last(lines));
    }
  }

  /** If neither the line of a BEGIN nor that of a later END is protected, their labels differ. */
  lemma {:induction false} UnprotectedDontPair(markers: seq<Tagged>, i: nat, j: nat)
    requires Ascending(markers) && i < j < |markers|
    requires !IsProtected(markers, markers[i].line) && !IsProtected(markers, markers[j].line)
    ensures markers[i].marker.Begin? && markers[j].marker.End? ==> markers[i].marker.name != markers[j].marker.name
  {
    var name := markers[i].marker.name;
    if markers[i].marker == Begin(name) && markers[j].marker == End(name) {
      OneIsPaired(markers, name, i, j);
      FifoAscends(markers, name);
      var pairs := Fifo(markers, name).pairs;
      if k :| 0 <= k < |pairs| && pairs[k].begin == i {
        assert IsPair(pairs[k], markers, name) && Covers(markers, name, k, markers[i].line);
      } else {
        var k :| 0 <= k < |pairs| && pairs[k].end == j;
        assert IsPair(pairs[k], markers, name) && Covers(markers, name, k, markers[j].line);
      }
    }
  }

  // ----- scanning again after removal

  /** The items of the kept positions; position `k` is kept when `k + 1` is not in `removed`. */
  function Kept<T>(items: seq<T>, removed: set<nat>): seq<T> {
    if items == [] then []
    else Kept(Front(items), removed) + (if |items| in removed then [] else [Last(items)])
  }

  /** Kept items come from unremoved positions, in the same order. */
  lemma {:induction false} KeptEmbeds<T>(items: seq<T>, removed: set<nat>, i: nat, j: nat) returns (a: nat, b: nat)
    requires i <= j < |Kept(items, removed)|
    ensures a <= b < |items| && items[a] == Kept(items, removed)[i] && items[b] == Kept(items, removed)[j]
    ensures a + 1 !in removed && b + 1 !in removed
    ensures i < j ==> a < b
  {
    var before := Kept(Front(items), removed);
    if j < |before| {
      a, b := KeptEmbeds(Front(items), removed, i, j);
    } else if i < |before| {
      a, b := KeptEmbeds(Front(items), removed, i, i);
      b := |items| - 1;
    } else {
      a, b := |items| - 1, |items| - 1;
    }
  }

  /** Where a marker of a file comes from: its line and its place in the line. */
  lemma {:induction false} TagAllAt(lines: seq<seq<Marker>>, k: nat) returns (place: nat)
    requires k < |TagAll(lines)|
    ensures var line := TagAll(lines)[k].line;
      1 <= line <= |lines| && place < |lines[line - 1]| && lines[line - 1][place] == TagAll(lines)[k].marker
    ensures k == |TagAll(lines[..TagAll(lines)[k].line - 1])| + place
  {
    TagKeeps(|lines|, Last(lines));
    var before := TagAll(Front(lines));
    if k < |before| {
      place := TagAllAt(Front(lines), k);
      var line := TagAll(lines)[k].line;
      assert Front(lines)[..line - 1] == lines[..line - 1];
    } else {
      place := k - |before|;
      assert lines[..|lines| - 1] == Front(lines);
    }
  }

  lemma {:induction false} TagAllPrefix(lines: seq<seq<Marker>>, n: nat)
    requires n <= |lines|
    ensures TagAll(lines[..n]) <= TagAll(lines)
    decreases |lines|
  {
    if n == |lines| {
      assert lines[..n] == lines;
    } else {
      TagAllPrefix(Front(lines), n);
      assert Front(lines)[..n] == lines[..n];
    }
  }

  /** The marker at a given place of a given line. */
  lemma {:induction false} TagAllHas(lines: seq<seq<Marker>>, line: nat, place: nat) returns (k: nat)
    requires 1 <= line <= |lines| && place < |lines[line - 1]|
    ensures k == |TagAll(lines[..line - 1])| + place
    ensures k < |TagAll(lines)| && TagAll(lines)[k] == Tagged(line, lines[line - 1][place])
  {
    k := |TagAll(lines[..line - 1])| + place;
    var upTo := lines[..line];
    assert Front(upTo) == lines[..line - 1] && Last(upTo) == lines[line - 1];
    TagKeeps(line, lines[line - 1]);
    TagAllPrefix(lines, line);
    assert TagAll(upTo)[k] == Tagged(line, lines[line - 1][place]);
  }

  lemma {:induction false} PrefixLengthsAscend(lines: seq<seq<Marker>>, m: nat, n: nat)
    requires m <= n <= |lines|
    ensures |TagAll(lines[..m])| <= |TagAll(lines[..n])|
  {
    assert lines[..n][..m] == lines[..m];
    TagAllPrefix(lines[..n], m);
  }

  /** Markers of a later line, or further right in one line, come later in the file. */
  lemma {:induction false} PlacesAscend(lines: seq<seq<Marker>>, a: nat, placeA: nat, b: nat, placeB: nat)
    requires a <= b < |lines| && placeA < |lines[a]| && (a == b ==> placeA < placeB)
    ensures |TagAll(lines[..a])| + placeA < |TagAll(lines[..b])| + placeB
  {
    if a < b {
      PrefixLengthsAscend(lines, a + 1, b);
      TagKeeps(a + 1, lines[a]);
      assert Front(lines[..a + 1]) == lines[..a];
    }
  }

  /** Two markers kept in order were in that order before, on unremoved lines. */
  lemma {:induction false} KeptMarkersEmbed(lines: seq<seq<Marker>>, removed: set<nat>, i: nat, j: nat) returns (x: nat, y: nat)
    requires i < j < |TagAll(Kept(lines, removed))|
    ensures x < y < |TagAll(lines)|
    ensures TagAll(lines)[x].marker == TagAll(Kept(lines, removed))[i].marker && TagAll(lines)[x].line !in removed
    ensures TagAll(lines)[y].marker == TagAll(Kept(lines, removed))[j].marker && TagAll(lines)[y].line !in removed
  {
    var kept := Kept(lines, removed);
    TagAllAscends(kept);
    var placeI := TagAllAt(kept, i);
    var placeJ := TagAllAt(kept, j);
    var a, b := KeptEmbeds(lines, removed, TagAll(kept)[i].line - 1, TagAll(kept)[j].line - 1);
    x := TagAllHas(lines, a + 1, placeI);
    y := TagAllHas(lines, b + 1, placeJ);
    PlacesAscend(lines, a, placeI, b, placeJ);
  }

  /** Sanitising reaches a fixed point: once all protected lines are removed, no label has a pair. */
  lemma {:induction false} NoPairAfterRemoval(lines: seq<seq<Marker>>, removed: set<nat>, name: string)
    requires forall n :: 1 <= n <= |lines| && IsProtected(TagAll(lines), n) ==> n in removed
    ensures Fifo(TagAll(Kept(lines, removed)), name).pairs == []
  {
    var kept := TagAll(Kept(lines, removed));
    PairedIffBeginBeforeEnd(kept, name);
    if i, j :| 0 <= i < j < |kept| && kept[i].marker == Begin(name) && kept[j].marker == End(name) {
      TagAllAscends(lines);
      var x, y := KeptMarkersEmbed(lines, removed, i, j);
      UnprotectedDontPair(TagAll(lines), x, y);
      assert false;
    }
  }
}

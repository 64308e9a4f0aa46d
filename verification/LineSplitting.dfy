/** Splitting a sequence into lines that keep their terminator.

    One definition serves bytes and characters: the packed-refs scanner and the diff
    reader split on LF only, while the wire-patch parser splits on every line break
    that Python's `str.splitlines` knows. */
module LineSplitting {

  datatype Option<+T> = None | Some(value: T)

  function Last<T>(s: seq<T>): T
    requires s != []
  {
    s[|s| - 1]
  }

  function Front<T>(s: seq<T>): seq<T>
    requires s != []
  {
    s[..|s| - 1]
  }

  function Flatten<T>(parts: seq<seq<T>>): seq<T> {
    if parts == [] then [] else parts[0] + Flatten(parts[1..])
  }

  lemma {:induction false} FlattenAppend<T>(a: seq<seq<T>>, b: seq<seq<T>>)
    ensures Flatten(a + b) == Flatten(a) + Flatten(b)
  {
    if a == [] {
      assert a + b == b;
    } else {
      assert (a + b)[1..] == a[1..] + b;
      FlattenAppend(a[1..], b);
    }
  }

  /** The last line exists and is still missing its terminator. */
  predicate Open<T>(lines: seq<seq<T>>, isBreak: T -> bool) {
    lines != [] && Last(lines) != [] && !isBreak(Last(Last(lines)))
  }

  /** What one more element does to the lines read so far. */
  function Extend<T>(lines: seq<seq<T>>, x: T, isBreak: T -> bool): seq<seq<T>> {
    if Open(lines, isBreak) then Front(lines) + [Last(lines) + [x]] else lines + [[x]]
  }

  /** The lines of `data`, each with its terminator; only the last may lack one. */
  function Lines<T>(data: seq<T>, isBreak: T -> bool): seq<seq<T>> {
    if data == [] then [] else Extend(Lines(Front(data), isBreak), Last(data), isBreak)
  }

  /** A line is non-empty and breaks at its end or nowhere. */
  predicate IsLine<T>(line: seq<T>, isBreak: T -> bool) {
    line != [] && forall i :: 0 <= i < |line| - 1 ==> !isBreak(line[i])
  }

  /** The shape of every split: lines, all terminated except possibly the last. */
  predicate WellSplit<T>(lines: seq<seq<T>>, isBreak: T -> bool) {
    && (forall i :: 0 <= i < |lines| ==> IsLine(lines[i], isBreak))
    && (forall i :: 0 <= i < |lines| - 1 ==> isBreak(Last(lines[i])))
  }

  /** Nothing is pending: the data ends at a line boundary. */
  predicate Terminated<T>(data: seq<T>, isBreak: T -> bool) {
    data == [] || isBreak(Last(data))
  }

  /** One more element keeps the content. */
  lemma {:induction false} ExtendFlat<T>(lines: seq<seq<T>>, x: T, isBreak: T -> bool)
    ensures Flatten(Extend(lines, x, isBreak)) == Flatten(lines) + [x]
  {
    if Open(lines, isBreak) {
      FlattenAppend(Front(lines), [Last(lines)]);
      FlattenAppend(Front(lines), [Last(lines) + [x]]);
      assert lines == Front(lines) + [Last(lines)];
    } else {
      FlattenAppend(lines, [[x]]);
    }
  }

  /** One more element keeps the shape. */
  lemma {:induction false} ExtendShape<T>(lines: seq<seq<T>>, x: T, isBreak: T -> bool)
    requires WellSplit(lines, isBreak)
    ensures WellSplit(Extend(lines, x, isBreak), isBreak)
    ensures Open(Extend(lines, x, isBreak), isBreak) == !isBreak(x)
  {
    var open := Open(lines, isBreak);
    var front, last := if open then Front(lines) else lines, if open then Last(lines) + [x] else [x];
    if open {
      assert IsLine(lines[|lines| - 1], isBreak);
    }
    assert IsLine(last, isBreak) && Last(last) == x;
    OneMoreIsSplit(front, last, isBreak);
  }

  lemma {:induction false} OneMoreIsSplit<T>(front: seq<seq<T>>, last: seq<T>, isBreak: T -> bool)
    requires WellSplit(front, isBreak) && !Open(front, isBreak) && IsLine(last, isBreak)
    ensures WellSplit(front + [last], isBreak)
  {
    var lines := front + [last];
    forall i | 0 <= i < |lines| ensures IsLine(lines[i], isBreak) {
      if i < |front| {
        assert lines[i] == front[i];
      }
    }
    forall i | 0 <= i < |lines| - 1 ensures isBreak(Last(lines[i])) {
      assert lines[i] == front[i] && IsLine(front[i], isBreak);
    }
  }

  lemma {:induction false} LinesSound<T>(data: seq<T>, isBreak: T -> bool)
    ensures WellSplit(Lines(data, isBreak), isBreak)
    ensures Flatten(Lines(data, isBreak)) == data
    ensures Open(Lines(data, isBreak), isBreak) == !Terminated(data, isBreak)
  {
    if data != [] {
      LinesSound(Front(data), isBreak);
      ExtendShape(Lines(Front(data), isBreak), Last(data), isBreak);
      ExtendFlat(Lines(Front(data), isBreak), Last(data), isBreak);
      assert data == Front(data) + [Last(data)];
    }
  }

  /** The lines with their very last element taken away. */
  function Shrink<T>(lines: seq<seq<T>>): seq<seq<T>>
    requires lines != [] && Last(lines) != []
  {
    if |Last(lines)| == 1 then Front(lines) else Front(lines) + [Front(Last(lines))]
  }

  /** `Lines` is the only way to cut data into well-split lines. */
  lemma {:induction false} LinesUnique<T>(lines: seq<seq<T>>, isBreak: T -> bool)
    requires WellSplit(lines, isBreak)
    ensures Lines(Flatten(lines), isBreak) == lines
    decreases |Flatten(lines)|
  {
    if lines != [] {
      var shorter, x := Shrink(lines), Last(Last(lines));
      ExtendShrunk(lines, isBreak);
      FlattenShrunk(lines);
      LinesUnique(shorter, isBreak);
      assert Front(Flatten(shorter) + [x]) == Flatten(shorter);
    }
  }

  lemma {:induction false} ExtendShrunk<T>(lines: seq<seq<T>>, isBreak: T -> bool)
    requires WellSplit(lines, isBreak) && lines != []
    ensures WellSplit(Shrink(lines), isBreak) && Extend(Shrink(lines), Last(Last(lines)), isBreak) == lines
  {
    var last := Last(lines);
    assert lines == Front(lines) + [last];
    if |last| == 1 {
      assert last == [Last(last)];
    } else {
      assert last == Front(last) + [Last(last)];
    }
  }

  lemma {:induction false} FlattenShrunk<T>(lines: seq<seq<T>>)
    requires lines != [] && Last(lines) != []
    ensures Flatten(lines) == Flatten(Shrink(lines)) + [Last(Last(lines))]
  {
    var last := Last(lines);
    assert lines == Front(lines) + [last];
    FlattenAppend(Front(lines), [last]);
    if |last| == 1 {
      assert last == [Last(last)];
    } else {
      FlattenAppend(Front(lines), [Front(last)]);
      assert last == Front(last) + [Last(last)];
    }
  }

  lemma {:induction false} LinesConcat<T>(a: seq<T>, b: seq<T>, isBreak: T -> bool)
    requires Terminated(a, isBreak)
    ensures Lines(a + b, isBreak) == Lines(a, isBreak) + Lines(b, isBreak)
  {
    LinesSound(a, isBreak);
    LinesSound(b, isBreak);
    var la, lb := Lines(a, isBreak), Lines(b, isBreak);
    FlattenAppend(la, lb);
    LinesUnique(la + lb, isBreak);
  }
}

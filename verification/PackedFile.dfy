/** A packed-refs file as Git writes it is read back: its header, its entries and their peeled lines are
    accepted, and a name that stands in it gives its object. */
module PackedFile {
  import opened LineSplitting
  import opened PackedRefs

  /** One reference; an annotated tag brings the object it points to. */
  datatype Entry = Entry(oid: string, name: string, peeled: Option<string>)

  /** Lower-case hexadecimal of the length, not all zero. */
  predicate IsObject(oid: string, n: nat) {
    && |oid| == n && (forall i :: 0 <= i < n ==> oid[i] in "0123456789abcdef")
    && exists i :: 0 <= i < n && oid[i] != '0'
  }

  /** An object ID is one that is an object in lower case, which is what a look-up returns. */
  lemma {:induction false} OidExactly(raw: string, n: nat)
    ensures IsOid(raw, n) <==> IsObject(Lower(raw), n)
    ensures IsObject(raw, n) ==> Lower(raw) == raw
  {
    forall i | 0 <= i < |raw|
      ensures (IsHexDigit(raw[i]) <==> Lower(raw)[i] in "0123456789abcdef") && (Lower(raw)[i] == '0' <==> raw[i] == '0')
    {
      DigitIs(raw[i]);
    }
    if IsObject(raw, n) {
      forall i | 0 <= i < n ensures Lower(raw)[i] == raw[i] {
        assert raw[i] in "0123456789abcdef";
      }
    }
  }

  lemma {:induction false} DigitIs(b: char)
    ensures IsHexDigit(b) <==> LowerByte(b) in "0123456789abcdef"
    ensures LowerByte(b) == '0' <==> b == '0'
  {
    var digits, c := "0123456789abcdef", LowerByte(b);
    if '0' <= c <= '9' {
      assert digits[c as int - '0' as int] == c;
    } else if 'a' <= c <= 'f' {
      assert digits[10 + (c as int - 'a' as int)] == c;
    }
  }

  predicate IsPlain(b: char) { 'a' <= b <= 'z' || 'A' <= b <= 'Z' || '0' <= b <= '9' || b == '-' || b == '_' || b == '/' }

  /** Letters, digits, "-", "_", and single slashes between them. */
  predicate IsPlainName(name: string) {
    && name != [] && (forall k :: 0 <= k < |name| ==> IsPlain(name[k]))
    && forall k :: 0 <= k < |name| && name[k] == '/' ==> 0 < k < |name| - 1 && name[k + 1] != '/'
  }

  predicate EntryOk(e: Entry, layout: Layout) {
    && IsObject(e.oid, layout.expectedLength) && IsPlainName(e.name)
    && (e.peeled.Some? ==> IsObject(e.peeled.value, layout.expectedLength))
  }

  /** All entries are in order, and no name stands twice. */
  predicate EntriesOk(entries: seq<Entry>, layout: Layout) {
    entries != [] ==> EntriesOk(Front(entries), layout) && EntryOk(Last(entries), layout) && Find(Front(entries), Last(entries).name).None?
  }

  /** The object of a name. */
  function Find(entries: seq<Entry>, name: string): Option<string> {
    if entries == [] then None
    else if Last(entries).name == name then Some(Last(entries).oid)
    else Find(Front(entries), name)
  }

  function DirectLine(e: Entry): string { e.oid + (" " + e.name) }

  function PeeledLines(e: Entry): seq<string> { if e.peeled.Some? then ["^" + e.peeled.value] else [] }

  function HeaderLine(): string { HEADER + " peeled fully-peeled sorted " }

  /** The lines, each without its LF. */
  function PrintBodies(entries: seq<Entry>): seq<string> {
    if entries == [] then [HeaderLine()] else PrintBodies(Front(entries)) + [DirectLine(Last(entries))] + PeeledLines(Last(entries))
  }

  // ----- names and objects

  lemma {:induction false} PlainNameIsRefName(name: string)
    requires IsPlainName(name)
    ensures IsRefName(name)
  {
    forall i, j | IsComponent(name, i, j) ensures IsGoodComponent(name[i..j]) {
      assert i > 0 ==> name[i - 1] == '/';
      assert i < |name| && i < j;
      var part := name[i..j];
      assert forall k :: 0 <= k < |part| ==> part[k] == name[i + k] && IsPlain(name[i + k]);
    }
    forall k ensures !PairAt(name, k, DOT, DOT) && !PairAt(name, k, AT, BRACE) {
      assert 0 <= k < |name| ==> IsPlain(name[k]);
    }
    assert IsPlain(name[0]) && IsPlain(name[|name| - 1]);
  }

  lemma {:induction false} ObjectIsOid(oid: string, n: nat)
    requires IsObject(oid, n)
    ensures IsOid(oid, n) && Lower(oid) == oid
  {
    forall i | 0 <= i < n ensures IsHexDigit(oid[i]) && LowerByte(oid[i]) == oid[i] {
      assert oid[i] in "0123456789abcdef";
      assert "0123456789abcdef" == ['0', '1', '2', '3', '4', '5', '6', '7', '8', '9', 'a', 'b', 'c', 'd', 'e', 'f'];
    }
  }

  // ----- lines

  lemma {:induction false} DirectParts(oid: string, name: string)
    ensures
      var body, n := oid + (" " + name), |oid|;
      |body| > n && body[..n] == oid && body[n] == ' ' && body[n + 1..] == name
  {
  }

  lemma {:induction false} DirectMeans(body: string, oid: string, name: string, layout: Layout)
    requires |body| > layout.expectedLength && body[..layout.expectedLength] == oid && body[layout.expectedLength] == ' '
    requires body[layout.expectedLength + 1..] == name && IsOid(oid, layout.expectedLength) && IsRefName(name)
    ensures IsDirect(body, layout)
  {
  }

  lemma {:induction false} EntryParts(e: Entry, layout: Layout)
    requires EntryOk(e, layout)
    ensures |e.oid| == layout.expectedLength && IsOid(e.oid, layout.expectedLength) && Lower(e.oid) == e.oid && IsRefName(e.name)
  {
    ObjectIsOid(e.oid, layout.expectedLength);
    PlainNameIsRefName(e.name);
  }

  lemma {:induction false} DirectIs(e: Entry, layout: Layout)
    requires EntryOk(e, layout)
    ensures
      var body := DirectLine(e);
      && IsDirect(body, layout) && Lower(body[..layout.expectedLength]) == e.oid
      && body[layout.expectedLength + 1..] == e.name
  {
    EntryParts(e, layout);
    DirectParts(e.oid, e.name);
    DirectMeans(DirectLine(e), e.oid, e.name, layout);
  }

  lemma {:induction false} PeeledIs(peeled: string, layout: Layout)
    requires IsObject(peeled, layout.expectedLength)
    ensures IsPeeled("^" + peeled, layout) && !IsDirect("^" + peeled, layout)
  {
    var body := "^" + peeled;
    assert body[1..] == peeled && body[0] == CARET;
    ObjectIsOid(peeled, layout.expectedLength);
    assert |body| > layout.expectedLength > 0 ==> body[..layout.expectedLength][0] == body[0];
  }

  lemma {:induction false} HeaderIs(layout: Layout)
    requires IsLayout(layout) && layout.header == HEADER
    ensures IsHeader(HeaderLine(), layout) && !IsDirect(HeaderLine(), layout)
  {
    var body := HeaderLine();
    assert body[0] == HASH;
    assert '\0' !in HEADER && '\0' !in " peeled fully-peeled sorted ";
    assert |body| > layout.expectedLength > 0 ==> body[..layout.expectedLength][0] == body[0];
  }

  // ----- the whole file

  lemma {:induction false} AllowedMore(bodies: seq<string>, body: string, layout: Layout)
    requires WellFormed(bodies, layout)
    requires IsDirect(body, layout) || (bodies != [] && IsDirect(Last(bodies), layout) && IsPeeled(body, layout))
    ensures WellFormed(bodies + [body], layout)
  {
    assert Front(bodies + [body]) == bodies;
    WellFormedStep(bodies + [body], layout);
  }

  lemma {:induction false} PrintedIsWellFormed(entries: seq<Entry>, layout: Layout)
    requires EntriesOk(entries, layout) && IsLayout(layout) && layout.header == HEADER
    ensures PrintBodies(entries) != [] && WellFormed(PrintBodies(entries), layout)
  {
    if entries == [] {
      HeaderIs(layout);
    } else {
      var front, e := PrintBodies(Front(entries)), Last(entries);
      PrintedIsWellFormed(Front(entries), layout);
      DirectIs(e, layout);
      AllowedMore(front, DirectLine(e), layout);
      if e.peeled.Some? {
        PeeledIs(e.peeled.value, layout);
        assert Last(front + [DirectLine(e)]) == DirectLine(e);
        AllowedMore(front + [DirectLine(e)], "^" + e.peeled.value, layout);
      } else {
        assert front + [DirectLine(e)] + [] == front + [DirectLine(e)];
      }
    }
  }

  /** What is found in the lines, and that it is found once. */
  ghost predicate Finds(bodies: seq<string>, layout: Layout, target: string, found: Option<string>) {
    && TargetIsUnique(bodies, layout, target) && IsLookup(bodies, layout, target, found)
    && (found.None? <==> NoTarget(bodies, layout, target))
  }

  lemma {:induction false} FindsMore(bodies: seq<string>, body: string, layout: Layout, target: string, found: Option<string>)
    requires Finds(bodies, layout, target, found)
    requires IsTarget(body, layout, target) ==> found.None?
    ensures Finds(bodies + [body], layout, target,
                  if IsTarget(body, layout, target) then Some(Lower(body[..layout.expectedLength])) else found)
  {
    var more := bodies + [body];
    assert Front(more) == bodies && Last(more) == body;
    UniqueStep(more, layout, target);
    LookupStep(more, layout, target, found);
    NoTargetMore(bodies, body, layout, target);
  }

  lemma {:induction false} NoTargetMore(bodies: seq<string>, body: string, layout: Layout, target: string)
    ensures NoTarget(bodies + [body], layout, target) <==> NoTarget(bodies, layout, target) && !IsTarget(body, layout, target)
  {
    var more := bodies + [body];
    assert forall i :: 0 <= i < |bodies| ==> more[i] == bodies[i];
    assert more[|bodies|] == body;
  }

  lemma {:induction false} PrintedFinds(entries: seq<Entry>, layout: Layout, target: string)
    requires EntriesOk(entries, layout) && IsLayout(layout) && layout.header == HEADER
    ensures Finds(PrintBodies(entries), layout, target, Find(entries, target))
  {
    if entries == [] {
      HeaderIs(layout);
    } else {
      var front, e := PrintBodies(Front(entries)), Last(entries);
      var before := Find(Front(entries), target);
      PrintedFinds(Front(entries), layout, target);
      DirectIs(e, layout);
      assert IsTarget(DirectLine(e), layout, target) <==> e.name == target;
      FindsMore(front, DirectLine(e), layout, target, before);
      if e.peeled.Some? {
        PeeledIs(e.peeled.value, layout);
        FindsMore(front + [DirectLine(e)], "^" + e.peeled.value, layout, target, Find(entries, target));
      } else {
        assert front + [DirectLine(e)] + [] == front + [DirectLine(e)];
      }
    }
  }

  function PrintFile(entries: seq<Entry>): string {
    Flatten(Ended(PrintBodies(entries)))
  }

  function Ended(bodies: seq<string>): seq<string> { seq(|bodies|, i requires 0 <= i < |bodies| => bodies[i] + "\n") }

  predicate NoBreaks(bodies: seq<string>) { forall i :: 0 <= i < |bodies| ==> '\n' !in bodies[i] }

  lemma {:induction false} PrintedHaveNoBreaks(entries: seq<Entry>, layout: Layout)
    requires EntriesOk(entries, layout)
    ensures NoBreaks(PrintBodies(entries))
  {
    if entries == [] {
      assert '\n' !in HEADER && '\n' !in " peeled fully-peeled sorted ";
    } else {
      var e := Last(entries);
      PrintedHaveNoBreaks(Front(entries), layout);
      NoBreakIn(e.oid, layout.expectedLength);
      assert forall k :: 0 <= k < |e.name| ==> IsPlain(e.name[k]);
      if e.peeled.Some? {
        NoBreakIn(e.peeled.value, layout.expectedLength);
      }
    }
  }

  lemma {:induction false} NoBreakIn(oid: string, n: nat)
    requires IsObject(oid, n)
    ensures '\n' !in oid
  {
    assert "0123456789abcdef" == ['0', '1', '2', '3', '4', '5', '6', '7', '8', '9', 'a', 'b', 'c', 'd', 'e', 'f'];
    assert forall i :: 0 <= i < n ==> oid[i] in "0123456789abcdef";
  }

  lemma {:induction false} EndedSplit(bodies: seq<string>)
    requires NoBreaks(bodies) && bodies != []
    ensures Bodies(Flatten(Ended(bodies))) == bodies && Terminated(Flatten(Ended(bodies)), IsLf)
  {
    var lines := Ended(bodies);
    forall i | 0 <= i < |lines| ensures IsLine(lines[i], IsLf) && IsLf(Last(lines[i])) && Front(lines[i]) == bodies[i] {
      assert lines[i] == bodies[i] + "\n" && '\n' !in bodies[i];
    }
    LinesUnique(lines, IsLf);
    LinesSound(Flatten(lines), IsLf);
    assert Last(lines) == lines[|lines| - 1];
    assert Bodies(Flatten(lines)) == bodies;
  }

  /** The file is acceptable whatever name is looked for, and the look-up gives the object of the name, or
      nothing when no entry has it. */
  lemma {:induction false} PrintedIsRead(entries: seq<Entry>, layout: Layout, target: string)
    requires EntriesOk(entries, layout) && IsLayout(layout) && layout.header == HEADER
    ensures Acceptable(PrintFile(entries), layout, target)
    ensures IsLookup(Bodies(PrintFile(entries)), layout, target, Find(entries, target))
  {
    PrintedHaveNoBreaks(entries, layout);
    PrintedIsWellFormed(entries, layout);
    PrintedFinds(entries, layout, target);
    EndedSplit(PrintBodies(entries));
  }
}

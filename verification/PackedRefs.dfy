/** The grammar of a packed-refs file, stated on whole lines.

    A file is a sequence of LF-terminated lines: an optional header on line 0, direct
    entries `<oid> <separator> <ref name>`, and peeled entries `^<oid>` that may only
    follow a direct entry. The streaming scanner of PackedRefScanner is proved to
    decide exactly this grammar. */
module PackedRefs {
  import opened LineSplitting

  /** A byte is the character with its code: ASCII text and its encoding are the same sequence. */
  type Byte = char

  const LF: Byte := '\n'
  const HASH: Byte := '#'
  const DOT: Byte := '.'
  const SLASH: Byte := '/'
  const AT: Byte := '@'
  const CARET: Byte := '^'
  const BRACE: Byte := '{'
  /** What the object format and the file format fix: the header text and the object ID length. */
  datatype Layout = Layout(header: seq<Byte>, expectedLength: nat)

  const OBJECT_FORMAT_LENGTHS: map<string, nat> := map["sha1" := 40, "sha256" := 64]

  predicate IsLf(b: Byte) { b == LF }

  predicate IsAscii(text: string) {
    forall i :: 0 <= i < |text| ==> text[i] as int < 128
  }

  const HEADER: seq<Byte> := "# pack-refs with:"

  predicate IsLayout(layout: Layout) {
    |layout.header| == 17 && layout.header[0] == HASH && layout.expectedLength > 0
  }

  const LOCK_LENGTH := 5
  const REFS_PREFIX: seq<Byte> := "refs/"

  predicate IsSeparator(b: Byte) { b == ' ' || b == '\t' || b == '\r' }

  predicate IsForbiddenInRef(b: Byte) {
    || b < ' ' || b == '\U{7F}'
    || b == ' ' || b == '~' || b == CARET || b == ':'
    || b == '?' || b == '*' || b == '[' || b == '\\'
  }

  // ----- object identifiers

  function LowerByte(b: Byte): Byte {
    if 'A' <= b <= 'Z' then (b as int + 32) as char else b
  }

  function Lower(bytes: seq<Byte>): (r: seq<Byte>)
    ensures |r| == |bytes|
  {
    seq(|bytes|, i requires 0 <= i < |bytes| => LowerByte(bytes[i]))
  }

  predicate IsHexDigit(b: Byte) {
    '0' <= b <= '9' || 'a' <= b <= 'f' || 'A' <= b <= 'F'
  }

  /** An object ID of the expected length: hexadecimal in either case, and not all zero. */
  predicate IsOid(raw: seq<Byte>, expectedLength: nat) {
    && |raw| == expectedLength
    && (forall i :: 0 <= i < |raw| ==> IsHexDigit(raw[i]))
    && (exists i :: 0 <= i < |raw| && raw[i] != '0')
  }

  // ----- reference names

  /** `name[i..j]` is a maximal piece of `name` without a slash. */
  predicate IsComponent(name: seq<Byte>, i: int, j: int) {
    && 0 <= i <= j <= |name|
    && (i == 0 || name[i - 1] == SLASH)
    && (j == |name| || name[j] == SLASH)
    && (forall k :: i <= k < j ==> name[k] != SLASH)
  }

  /** The bytes end with ".lock". */
  predicate EndsWithLock(bytes: seq<Byte>) {
    var n := |bytes|;
    && n >= LOCK_LENGTH
    && bytes[n - 5] == '.' && bytes[n - 4] == 'l' && bytes[n - 3] == 'o'
    && bytes[n - 2] == 'c' && bytes[n - 1] == 'k'
  }

  predicate PairAt(name: seq<Byte>, k: int, first: Byte, second: Byte) {
    0 <= k < |name| - 1 && name[k] == first && name[k + 1] == second
  }

  ghost predicate HasPair(name: seq<Byte>, first: Byte, second: Byte) {
    exists k :: PairAt(name, k, first, second)
  }

  predicate IsGoodComponent(component: seq<Byte>) {
    component != [] && component[0] != DOT && !EndsWithLock(component)
  }

  /** The rules for a full reference name. */
  ghost predicate IsRefName(name: seq<Byte>) {
    && name != [AT]
    && (name != [] ==> Last(name) != DOT)
    && (forall k :: 0 <= k < |name| ==> !IsForbiddenInRef(name[k]))
    && !HasPair(name, DOT, DOT)
    && !HasPair(name, AT, BRACE)
    && (forall i, j :: IsComponent(name, i, j) ==> IsGoodComponent(name[i..j]))
  }

  // ----- lines

  /** A line without its LF. */
  function Body(line: seq<Byte>): seq<Byte> {
    if line != [] && Last(line) == LF then Front(line) else line
  }

  function Bodies(data: seq<Byte>): (r: seq<seq<Byte>>) {
    var lines := Lines(data, IsLf);
    seq(|lines|, i requires 0 <= i < |lines| => Body(lines[i]))
  }

  predicate IsHeader(body: seq<Byte>, layout: Layout) {
    layout.header <= body && '\0' !in body
  }

  predicate IsPeeled(body: seq<Byte>, layout: Layout) {
    body != [] && body[0] == CARET && IsOid(body[1..], layout.expectedLength)
  }

  ghost predicate IsDirect(body: seq<Byte>, layout: Layout) {
    && |body| > layout.expectedLength
    && IsOid(body[..layout.expectedLength], layout.expectedLength)
    && IsSeparator(body[layout.expectedLength])
    && IsRefName(body[layout.expectedLength + 1..])
  }

  /** Line `i` is allowed where it stands. */
  ghost predicate LineAllowed(bodies: seq<seq<Byte>>, i: nat, layout: Layout)
    requires i < |bodies|
  {
    || (i == 0 && IsHeader(bodies[i], layout))
    || (i > 0 && IsDirect(bodies[i - 1], layout) && IsPeeled(bodies[i], layout))
    || IsDirect(bodies[i], layout)
  }

  ghost predicate WellFormed(bodies: seq<seq<Byte>>, layout: Layout) {
    forall i :: 0 <= i < |bodies| ==> LineAllowed(bodies, i, layout)
  }

  ghost predicate IsTarget(body: seq<Byte>, layout: Layout, target: seq<Byte>) {
    IsDirect(body, layout) && body[layout.expectedLength + 1..] == target
  }

  ghost predicate TargetIsUnique(bodies: seq<seq<Byte>>, layout: Layout, target: seq<Byte>) {
    forall i, j :: 0 <= i < j < |bodies| ==>
      !(IsTarget(bodies[i], layout, target) && IsTarget(bodies[j], layout, target))
  }

  ghost predicate Acceptable(data: seq<Byte>, layout: Layout, target: seq<Byte>) {
    && Terminated(data, IsLf)
    && WellFormed(Bodies(data), layout)
    && TargetIsUnique(Bodies(data), layout, target)
  }

  /** `found` is the lower-cased object ID of the target's line, or None if it has no line. */
  ghost predicate IsLookup(bodies: seq<seq<Byte>>, layout: Layout, target: seq<Byte>, found: Option<seq<Byte>>) {
    match found
    case None => forall i :: 0 <= i < |bodies| ==> !IsTarget(bodies[i], layout, target)
    case Some(oid) =>
      exists i :: 0 <= i < |bodies| && IsTarget(bodies[i], layout, target) &&
        oid == Lower(bodies[i][..layout.expectedLength])
  }

  // ----- the name rules, decided left to right

  /** The bytes after the last slash. */
  function OpenComponent(name: seq<Byte>): (c: seq<Byte>)
    ensures |c| <= |name|
  {
    if name == [] || Last(name) == SLASH then [] else OpenComponent(Front(name)) + [Last(name)]
  }

  /** Every component that a slash has already closed is good. */
  ghost predicate ClosedComponentsGood(name: seq<Byte>) {
    forall i, j :: IsComponent(name, i, j) && j < |name| ==> IsGoodComponent(name[i..j])
  }

  /** The test made on one more byte of a name. */
  predicate ByteOk(name: seq<Byte>, b: Byte) {
    && !IsForbiddenInRef(b)
    && !(name != [] && Last(name) == DOT && b == DOT)
    && !(name != [] && Last(name) == AT && b == BRACE)
    && (if b == SLASH
        then OpenComponent(name) != [] && !EndsWithLock(OpenComponent(name))
        else OpenComponent(name) != [] || b != DOT)
  }

  /** Every byte passed its test: no rule is broken yet by a name that may still go on. */
  predicate PrefixOk(name: seq<Byte>) {
    name == [] || (PrefixOk(Front(name)) && ByteOk(Front(name), Last(name)))
  }

  /** What is left to check where the name ends. */
  predicate ClosesOk(name: seq<Byte>) {
    && name != []
    && Last(name) != SLASH && Last(name) != DOT
    && !EndsWithLock(OpenComponent(name))
    && !(|name| == 1 && Last(name) == AT)
  }

  lemma {:induction false} OpenComponentIsComponent(name: seq<Byte>)
    ensures IsComponent(name, |name| - |OpenComponent(name)|, |name|)
    ensures OpenComponent(name) == name[|name| - |OpenComponent(name)|..]
  {
    if name != [] && Last(name) != SLASH {
      OpenComponentIsComponent(Front(name));
    }
  }

  lemma {:induction false} ComponentsAgree(name: seq<Byte>, b: Byte, i: int, j: int)
    requires j < |name|
    ensures IsComponent(name + [b], i, j) <==> IsComponent(name, i, j)
    ensures IsComponent(name, i, j) ==> (name + [b])[i..j] == name[i..j]
  {
    if 0 <= i <= j {
      var longer := name + [b];
      assert forall k :: 0 <= k < |name| ==> longer[k] == name[k];
      assert longer[i..j] == name[i..j];
    }
  }

  /** A component ending where the name ends is the open one. */
  lemma {:induction false} LastComponentIsOpen(name: seq<Byte>, i: int)
    requires IsComponent(name, i, |name|)
    ensures name[i..] == OpenComponent(name)
  {
    OpenComponentIsComponent(name);
  }

  lemma {:induction false} ClosedComponentsShorter(name: seq<Byte>, b: Byte)
    requires ClosedComponentsGood(name + [b])
    ensures ClosedComponentsGood(name) && (b == SLASH ==> IsGoodComponent(OpenComponent(name)))
  {
    var longer, k := name + [b], |name| - |OpenComponent(name)|;
    forall i, j | IsComponent(name, i, j) && j < |name| ensures IsGoodComponent(name[i..j]) {
      ComponentsAgree(name, b, i, j);
      assert IsComponent(longer, i, j);
    }
    if b == SLASH {
      OpenComponentIsComponent(name);
      assert longer[k..|name|] == OpenComponent(name);
      assert IsComponent(longer, k, |name|);
    }
  }

  lemma {:induction false} ClosedComponentsLonger(name: seq<Byte>, b: Byte)
    requires ClosedComponentsGood(name) && (b == SLASH ==> IsGoodComponent(OpenComponent(name)))
    ensures ClosedComponentsGood(name + [b])
  {
    var longer := name + [b];
    forall i, j | IsComponent(longer, i, j) && j < |longer| ensures IsGoodComponent(longer[i..j]) {
      if j < |name| {
        ComponentsAgree(name, b, i, j);
      } else {
        assert forall k :: 0 <= k < |name| ==> longer[k] == name[k];
        assert IsComponent(name, i, |name|);
        LastComponentIsOpen(name, i);
        assert longer[i..j] == name[i..];
      }
    }
  }

  lemma {:induction false} PairStep(name: seq<Byte>, b: Byte, first: Byte, second: Byte)
    ensures HasPair(name + [b], first, second) <==>
      HasPair(name, first, second) || (name != [] && Last(name) == first && b == second)
  {
    var longer := name + [b];
    forall k | 0 <= k < |name| - 1 ensures PairAt(longer, k, first, second) <==> PairAt(name, k, first, second) {
      assert longer[k] == name[k] && longer[k + 1] == name[k + 1];
    }
    assert PairAt(longer, |name| - 1, first, second) <==> name != [] && Last(name) == first && b == second;
  }

  /** The whole-name rules, as far as a prefix can break them. */
  ghost predicate SoFarOk(name: seq<Byte>) {
    && (forall k :: 0 <= k < |name| ==> !IsForbiddenInRef(name[k]))
    && !HasPair(name, DOT, DOT)
    && !HasPair(name, AT, BRACE)
    && ClosedComponentsGood(name)
    && (OpenComponent(name) != [] ==> OpenComponent(name)[0] != DOT)
  }

  lemma {:induction false} SoFarStep(name: seq<Byte>, b: Byte)
    ensures SoFarOk(name + [b]) <==> SoFarOk(name) && ByteOk(name, b)
  {
    var longer := name + [b];
    assert Front(longer) == name && Last(longer) == b;
    if ClosedComponentsGood(longer) {
      ClosedComponentsShorter(name, b);
    }
    if ClosedComponentsGood(name) && (b == SLASH ==> IsGoodComponent(OpenComponent(name))) {
      ClosedComponentsLonger(name, b);
    }
    PairStep(name, b, DOT, DOT);
    PairStep(name, b, AT, BRACE);
    assert forall k :: 0 <= k < |name| ==> longer[k] == name[k];
    assert longer[|name|] == b;
  }

  lemma {:induction false} PrefixOkIsSoFarOk(name: seq<Byte>)
    ensures PrefixOk(name) <==> SoFarOk(name)
  {
    if name != [] {
      PrefixOkIsSoFarOk(Front(name));
      SoFarStep(Front(name), Last(name));
      assert name == Front(name) + [Last(name)];
    }
  }

  /** The left-to-right checks decide the whole-name rules. */
  lemma {:induction false} RefNameDecided(name: seq<Byte>)
    ensures IsRefName(name) <==> PrefixOk(name) && ClosesOk(name)
  {
    PrefixOkIsSoFarOk(name);
    OpenComponentIsComponent(name);
    var k := |name| - |OpenComponent(name)|;
    assert name[k..|name|] == name[k..];
    if IsRefName(name) {
      assert IsGoodComponent(OpenComponent(name));
      assert |name| == 1 && Last(name) == AT ==> name == [AT];
    }
    if SoFarOk(name) && ClosesOk(name) {
      forall i, j | IsComponent(name, i, j) ensures IsGoodComponent(name[i..j]) {
        if j == |name| {
          LastComponentIsOpen(name, i);
          assert name[i..j] == name[i..];
        }
      }
    }
  }

  // ----- the whole file, decided line by line

  datatype Verdict = Rejected | Accepted(found: Option<seq<Byte>>)

  /** The verdict on the lines so far: every line allowed where it stands, the target seen at most once. */
  ghost function Decide(bodies: seq<seq<Byte>>, layout: Layout, target: seq<Byte>): Verdict {
    if bodies == [] then Accepted(None)
    else
      match Decide(Front(bodies), layout, target)
      case Rejected => Rejected
      case Accepted(found) => Judge(bodies, layout, target, found)
  }

  ghost function Judge(bodies: seq<seq<Byte>>, layout: Layout, target: seq<Byte>, found: Option<seq<Byte>>): Verdict
    requires bodies != []
  {
    var body := Last(bodies);
    if !LineAllowed(bodies, |bodies| - 1, layout) then Rejected
    else if !IsTarget(body, layout, target) then Accepted(found)
    else if found.Some? then Rejected
    else Accepted(Some(Lower(body[..layout.expectedLength])))
  }

  lemma {:induction false} WellFormedStep(bodies: seq<seq<Byte>>, layout: Layout)
    requires bodies != []
    ensures WellFormed(bodies, layout) <==> WellFormed(Front(bodies), layout) && LineAllowed(bodies, |bodies| - 1, layout)
  {
    forall i | 0 <= i < |bodies| - 1
      ensures LineAllowed(bodies, i, layout) <==> LineAllowed(Front(bodies), i, layout)
    {
    }
  }

  /** No line so far names the target. */
  ghost predicate NoTarget(bodies: seq<seq<Byte>>, layout: Layout, target: seq<Byte>) {
    forall i :: 0 <= i < |bodies| ==> !IsTarget(bodies[i], layout, target)
  }

  lemma {:induction false} UniqueStep(bodies: seq<seq<Byte>>, layout: Layout, target: seq<Byte>)
    requires bodies != []
    ensures TargetIsUnique(bodies, layout, target) <==>
      && TargetIsUnique(Front(bodies), layout, target)
      && (IsTarget(Last(bodies), layout, target) ==> NoTarget(Front(bodies), layout, target))
  {
    var before, n := Front(bodies), |bodies| - 1;
    if TargetIsUnique(bodies, layout, target) && IsTarget(bodies[n], layout, target) {
      forall i | 0 <= i < n ensures !IsTarget(before[i], layout, target) {
        assert before[i] == bodies[i];
      }
    }
    if TargetIsUnique(bodies, layout, target) {
      forall i, j | 0 <= i < j < n
        ensures !(IsTarget(before[i], layout, target) && IsTarget(before[j], layout, target))
      {
        assert before[i] == bodies[i] && before[j] == bodies[j];
      }
    }
  }

  lemma {:induction false} LookupStep(bodies: seq<seq<Byte>>, layout: Layout, target: seq<Byte>, found: Option<seq<Byte>>)
    requires bodies != [] && IsLookup(Front(bodies), layout, target, found)
    ensures !IsTarget(Last(bodies), layout, target) ==> IsLookup(bodies, layout, target, found)
    ensures IsTarget(Last(bodies), layout, target) ==>
      IsLookup(bodies, layout, target, Some(Lower(Last(bodies)[..layout.expectedLength])))
    ensures found.None? <==> NoTarget(Front(bodies), layout, target)
  {
    if found.Some? {
      var i :| 0 <= i < |bodies| - 1 && IsTarget(Front(bodies)[i], layout, target) &&
        found.value == Lower(Front(bodies)[i][..layout.expectedLength]);
      assert bodies[i] == Front(bodies)[i];
    }
  }

  /** Line-by-line judging is the grammar: the file is accepted iff every line is allowed and
      the target is named at most once, and the answer is the target's object ID. */
  lemma {:induction false} DecideIsGrammar(bodies: seq<seq<Byte>>, layout: Layout, target: seq<Byte>)
    ensures Decide(bodies, layout, target).Accepted? <==> WellFormed(bodies, layout) && TargetIsUnique(bodies, layout, target)
    ensures Decide(bodies, layout, target).Accepted? ==>
      IsLookup(bodies, layout, target, Decide(bodies, layout, target).found)
  {
    if bodies != [] {
      DecideIsGrammar(Front(bodies), layout, target);
      WellFormedStep(bodies, layout);
      UniqueStep(bodies, layout, target);
      var d := Decide(Front(bodies), layout, target);
      if d.Accepted? {
        LookupStep(bodies, layout, target, d.found);
      }
    }
  }

  /** Once rejected, no continuation is accepted. */
  lemma {:induction false} RejectionIsFinal(bodies: seq<seq<Byte>>, more: seq<seq<Byte>>, layout: Layout, target: seq<Byte>)
    requires Decide(bodies, layout, target).Rejected?
    ensures Decide(bodies + more, layout, target).Rejected?
  {
    if more == [] {
      assert bodies + more == bodies;
    } else {
      RejectionIsFinal(bodies, Front(more), layout, target);
      assert Front(bodies + more) == bodies + Front(more);
    }
  }
}

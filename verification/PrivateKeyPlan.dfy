/** The whole private-key plan: prompt files, patch and application agree. */
module PrivateKeyPlan {
  import opened LineSplitting
  import opened RepositoryPaths
  import opened MarkerPairing
  import opened PrivateKeyRanges
  import opened WirePatch
  import opened WirePatchText
  import opened WirePatchReader
  import opened PatchApplication
  import opened DeletionPatch
  import opened DeletionPlan

  /** A file the repair may change; it need not exist. */
  datatype AllowedFile = AllowedFile(path: string, text: Option<string>)

  function HunksFor(files: seq<PatchFile>, path: string): seq<PatchHunk> {
    if files == [] then []
    else if Last(files).path == path then Last(files).hunks
    else HunksFor(Front(files), path)
  }

  /** The lines of a file once a patch is applied to it. */
  function Patched(path: string, text: string, patch: seq<PatchFile>): Option<seq<string>> {
    ApplyFile(LfLines(text), HunksFor(patch, path))
  }

  /** The deletions of `protected` turn the file into its prompt text. */
  ghost predicate Agrees(file: AllowedFile, prompt: Option<string>, protected: seq<ProtectedFile>)
    requires FilesFit(protected)
  {
    && (file.text.Some? <==> prompt.Some?)
    && (file.text.Some? ==> Patched(file.path, file.text.value, DeletionFiles(protected)) == Some(LfLines(prompt.value)))
  }

  predicate PathsAscend(allowed: seq<string>) {
    forall a, b :: 0 <= a < b < |allowed| ==> PathLess(allowed[a], allowed[b])
  }

  /** Every path of `paths` comes before `path`. */
  predicate IsAfter(paths: seq<string>, path: string) {
    forall j :: 0 <= j < |paths| ==> PathLess(paths[j], path)
  }

  ghost predicate PathsAmong(protected: seq<ProtectedFile>, paths: seq<string>) {
    forall i :: 0 <= i < |protected| ==> protected[i].path in paths
  }

  lemma {:induction false} NoHunks(protected: seq<ProtectedFile>, path: string)
    requires FilesFit(protected) && forall i :: 0 <= i < |protected| ==> protected[i].path != path
    ensures HunksFor(DeletionFiles(protected), path) == []
  {
    if protected != [] {
      NoHunks(Front(protected), path);
      LastDeletion(protected);
    }
  }

  lemma {:induction false} LastDeletion(protected: seq<ProtectedFile>)
    requires FilesFit(protected) && protected != []
    ensures
      var patch := DeletionFiles(protected);
      patch != [] && Front(patch) == DeletionFiles(Front(protected)) && Last(patch) == DeletionFile(Last(protected))
  {
    var front := DeletionFiles(Front(protected));
    assert Front(front + [DeletionFile(Last(protected))]) == front;
  }

  /** The deletions of another file do not matter to a path. */
  lemma {:induction false} OtherHunks(protected: seq<ProtectedFile>, path: string)
    requires FilesFit(protected) && protected != [] && Last(protected).path != path
    ensures HunksFor(DeletionFiles(protected), path) == HunksFor(DeletionFiles(Front(protected)), path)
  {
    LastDeletion(protected);
  }

  /** The protected lines of a file lie inside it. */
  lemma {:induction false} ProtectedFits(text: string, ranges: seq<Range>, find: string -> seq<Marker>)
    requires Separated(ranges) && CoversProtected(text, ranges, find)
    ensures RangesFit(LfLines(text), ranges)
  {
    TagAllAscends(MarkersOf(LfLines(text), find));
    if ranges != [] {
      SeparatedApart(ranges, 0, 0);
      assert InRange(ranges[0], ranges[0].start);
      assert InRanges(ranges, ranges[0].start);
      LastLine(ranges);
    }
  }

  /** The file just sanitised agrees with the plan that now has its ranges. */
  lemma {:induction false} NewAgrees(path: string, text: string, ranges: seq<Range>, before: seq<ProtectedFile>)
    requires FilesFit(before) && RangesFit(LfLines(text), ranges)
    requires forall i :: 0 <= i < |before| ==> before[i].path != path
    ensures
      var after := if ranges == [] then before else before + [ProtectedFile(path, text, ranges)];
      FilesFit(after) && Agrees(AllowedFile(path, Some(text)), Some(RemoveRanges(text, ranges)), after)
  {
    ApplyIsSanitise(text, ranges);
    if ranges == [] {
      NoHunks(before, path);
    } else {
      LastDeletion(before + [ProtectedFile(path, text, ranges)]);
    }
  }

  lemma {:induction false} PlanGrows(protected: seq<ProtectedFile>, more: ProtectedFile, allowed: seq<string>, i: nat)
    requires IsPlan(protected, allowed) && FileFit(more) && i < |allowed| && more.path == allowed[i]
    requires PathsAmong(protected, allowed[..i]) && IsAfter(allowed[..i], more.path)
    ensures IsPlan(protected + [more], allowed)
  {
    assert Front(protected + [more]) == protected;
    if protected != [] {
      assert protected[|protected| - 1].path in allowed[..i];
    }
  }

  lemma {:induction false} NotItself(path: string, k: nat)
    requires k <= |path|
    ensures !LessFrom(path, path, k)
    decreases |path| - k
  {
    if k < |path| {
      NotItself(path, k + 1);
    }
  }

  lemma {:induction false} FirstPairCovers(markers: seq<Tagged>, name: string)
    requires Ascending(markers) && Fifo(markers, name).pairs != []
    ensures exists n: nat :: IsProtected(markers, n)
  {
    FifoAscends(markers, name);
    var pairs := Fifo(markers, name).pairs;
    var pair := pairs[0];
    assert IsPair(pair, markers, name);
    assert Covers(markers, name, 0, markers[pair.begin].line);
    assert IsProtected(markers, markers[pair.begin].line);
  }

  /** There is something to delete exactly when some label has a pair. */
  lemma {:induction false} RangesMeanPairs(text: string, ranges: seq<Range>, find: string -> seq<Marker>)
    requires Separated(ranges) && CoversProtected(text, ranges, find)
    ensures ranges == [] <==> !HasPairedMaterial(text, find)
  {
    var markers := Scan(text, find);
    if ranges != [] {
      SeparatedApart(ranges, 0, 0);
      assert InRange(ranges[0], ranges[0].start);
      assert InRanges(ranges, ranges[0].start);
    }
    if name :| Fifo(markers, name).pairs != [] {
      TagAllAscends(MarkersOf(LfLines(text), find));
      FirstPairCovers(markers, name);
    }
  }

  ghost predicate IsClean(text: Option<string>, find: string -> seq<Marker>) {
    text.Some? ==> !HasPairedMaterial(text.value, find)
  }

  ghost predicate AllClean(files: seq<AllowedFile>, find: string -> seq<Marker>) {
    forall i :: 0 <= i < |files| ==> IsClean(files[i].text, find)
  }

  /** The lines that lie in a pair of some label. */
  ghost function PairedLines(text: string, find: string -> seq<Marker>): set<nat> {
    set n: nat | n <= |LfLines(text)| && IsProtected(Scan(text, find), n)
  }

  /** The prompt has exactly the lines of the file that no pair protects, in their order; a file without
      a pair is its own prompt; and the prompt has no pair. */
  ghost predicate IsPrompt(file: AllowedFile, prompt: Option<string>, find: string -> seq<Marker>) {
    && (file.text.Some? <==> prompt.Some?)
    && (file.text.Some? ==> LfLines(prompt.value) == Kept(LfLines(file.text.value), PairedLines(file.text.value, find)))
    && (IsClean(file.text, find) ==> prompt == file.text)
    && IsClean(prompt, find)
  }

  ghost predicate ArePrompts(files: seq<AllowedFile>, prompts: seq<Option<string>>, find: string -> seq<Marker>) {
    |prompts| == |files| && forall i :: 0 <= i < |files| ==> IsPrompt(files[i], prompts[i], find)
  }

  /** The patch, applied to each file, gives its prompt. */
  ghost predicate TurnsInto(patch: seq<PatchFile>, files: seq<AllowedFile>, prompts: seq<Option<string>>) {
    && |prompts| == |files|
    && forall i :: 0 <= i < |files| && files[i].text.Some? ==>
         prompts[i].Some? && Patched(files[i].path, files[i].text.value, patch) == Some(LfLines(prompts[i].value))
  }

  lemma {:induction false} StrippedIsPrompt(path: string, text: string, clean: string, ranges: seq<Range>, find: string -> seq<Marker>)
    requires CoversProtected(text, ranges, find) && LfLines(clean) == Kept(LfLines(text), LineSet(ranges))
    requires !HasPairedMaterial(clean, find) && (!HasPairedMaterial(text, find) ==> clean == text)
    ensures IsPrompt(AllowedFile(path, Some(text)), Some(clean), find)
  {
    KeptAgree(LfLines(text), LineSet(ranges), PairedLines(text, find));
  }

  /** Every prompt file is clean, and the deletions turn the files into them. */
  ghost predicate AllAgree(files: seq<AllowedFile>, prompts: seq<Option<string>>, protected: seq<ProtectedFile>, find: string -> seq<Marker>)
    requires FilesFit(protected) && |files| == |prompts|
  {
    forall i :: 0 <= i < |files| ==> Agrees(files[i], prompts[i], protected) && IsPrompt(files[i], prompts[i], find)
  }

  predicate PathsAre(files: seq<AllowedFile>, paths: seq<string>) {
    |files| == |paths| && forall i :: 0 <= i < |files| ==> files[i].path == paths[i]
  }

  lemma {:induction false} AllAgreeStill(files: seq<AllowedFile>, prompts: seq<Option<string>>, before: seq<ProtectedFile>,
      file: AllowedFile, prompt: Option<string>, after: seq<ProtectedFile>, find: string -> seq<Marker>)
    requires FilesFit(before) && FilesFit(after) && |files| == |prompts| && AllAgree(files, prompts, before, find)
    requires after == before || (after != [] && Front(after) == before && Last(after).path == file.path)
    requires forall i :: 0 <= i < |files| ==> files[i].path != file.path
    requires Agrees(file, prompt, after) && IsPrompt(file, prompt, find)
    ensures AllAgree(files + [file], prompts + [prompt], after, find)
  {
    EachAgreesStill(files, prompts, before, after, file.path, find);
    AllAgreeMore(files, prompts, after, file, prompt, find);
  }

  lemma {:induction false} EachAgreesStill(files: seq<AllowedFile>, prompts: seq<Option<string>>, before: seq<ProtectedFile>,
      after: seq<ProtectedFile>, path: string, find: string -> seq<Marker>)
    requires FilesFit(before) && FilesFit(after) && |files| == |prompts| && AllAgree(files, prompts, before, find)
    requires after == before || (after != [] && Front(after) == before && Last(after).path == path)
    requires forall i :: 0 <= i < |files| ==> files[i].path != path
    ensures AllAgree(files, prompts, after, find)
  {
    forall i | 0 <= i < |files| ensures Agrees(files[i], prompts[i], after) {
      OneAgreesStill(files[i], prompts[i], before, after, path);
    }
  }

  lemma {:induction false} OneAgreesStill(file: AllowedFile, prompt: Option<string>, before: seq<ProtectedFile>, after: seq<ProtectedFile>, path: string)
    requires FilesFit(before) && FilesFit(after) && Agrees(file, prompt, before) && file.path != path
    requires after == before || (after != [] && Front(after) == before && Last(after).path == path)
    ensures Agrees(file, prompt, after)
  {
    if after != before {
      OtherHunks(after, file.path);
    }
  }

  lemma {:induction false} AllAgreeMore(files: seq<AllowedFile>, prompts: seq<Option<string>>, protected: seq<ProtectedFile>,
      file: AllowedFile, prompt: Option<string>, find: string -> seq<Marker>)
    requires FilesFit(protected) && |files| == |prompts| && AllAgree(files, prompts, protected, find)
    requires Agrees(file, prompt, protected) && IsPrompt(file, prompt, find)
    ensures AllAgree(files + [file], prompts + [prompt], protected, find)
  {
    var allFiles, allPrompts := files + [file], prompts + [prompt];
    forall i | 0 <= i < |allFiles| ensures Agrees(allFiles[i], allPrompts[i], protected) && IsClean(allPrompts[i], find) {
      assert i < |files| ==> allFiles[i] == files[i] && allPrompts[i] == prompts[i];
    }
  }

  lemma {:induction false} AllCleanStill(files: seq<AllowedFile>, file: AllowedFile, find: string -> seq<Marker>)
    ensures AllClean(files + [file], find) <==> AllClean(files, find) && IsClean(file.text, find)
  {
    var more := files + [file];
    if AllClean(more, find) {
      assert forall j :: 0 <= j < |files| ==> files[j] == more[j];
      assert IsClean(more[|files|].text, find);
    }
  }

  /** `file` has the path that comes after those of `done`. */
  predicate IsNext(done: seq<AllowedFile>, file: AllowedFile, allowed: seq<string>) {
    && |done| < |allowed| && file.path == allowed[|done|] && IsAfter(allowed[..|done|], file.path)
    && forall j :: 0 <= j < |done| ==> done[j].path != file.path
  }

  lemma {:induction false} PathIsNext(files: seq<AllowedFile>, allowed: seq<string>, i: nat)
    requires PathsAre(files, allowed) && i < |files| && PathsAscend(allowed)
    ensures IsNext(files[..i], files[i], allowed)
  {
    forall j | 0 <= j < i ensures files[j].path != files[i].path && PathLess(allowed[..i][j], files[i].path) {
      assert files[j].path == allowed[j] && PathLess(allowed[j], allowed[i]);
      NotItself(allowed[j], 0);
    }
  }

  /** The files that hold a pair, in order, each with the one separated description of its
      protected lines. */
  ghost predicate PlanOf(files: seq<AllowedFile>, find: string -> seq<Marker>, protected: seq<ProtectedFile>) {
    if files == [] then protected == []
    else if IsClean(Last(files).text, find) then PlanOf(Front(files), find, protected)
    else protected != [] && PlanOf(Front(files), find, Front(protected)) && IsProtectionOf(Last(protected), Last(files), find)
  }

  ghost predicate IsProtectionOf(protection: ProtectedFile, file: AllowedFile, find: string -> seq<Marker>) {
    && file.text.Some? && protection.path == file.path && protection.text == file.text.value
    && Separated(protection.ranges) && CoversProtected(protection.text, protection.ranges, find)
  }

  /** The files and the marker function leave no choice. */
  lemma {:induction false} PlanIsUnique(files: seq<AllowedFile>, find: string -> seq<Marker>, a: seq<ProtectedFile>, b: seq<ProtectedFile>)
    requires PlanOf(files, find, a) && PlanOf(files, find, b)
    ensures a == b
  {
    if files != [] {
      if IsClean(Last(files).text, find) {
        PlanIsUnique(Front(files), find, a, b);
      } else {
        PlanIsUnique(Front(files), find, Front(a), Front(b));
        SeparatedIsCanonical(Last(a).ranges, Last(b).ranges);
        assert a == Front(a) + [Last(a)] && b == Front(b) + [Last(b)];
      }
    }
  }

  lemma {:induction false} PlanOfMore(files: seq<AllowedFile>, find: string -> seq<Marker>, before: seq<ProtectedFile>,
      file: AllowedFile, after: seq<ProtectedFile>)
    requires PlanOf(files, find, before)
    requires IsClean(file.text, find) ==> after == before
    requires !IsClean(file.text, find) ==> after != [] && Front(after) == before && IsProtectionOf(Last(after), file, find)
    ensures PlanOf(files + [file], find, after)
  {
    assert Front(files + [file]) == files && Last(files + [file]) == file;
  }

  /** No protected line of the file looks like a file header, and neither its path nor a protected
      line has a character that the parser rejects or breaks lines at. */
  ghost predicate IsDeletable(file: AllowedFile, find: string -> seq<Marker>, other: char -> bool) {
    !IsClean(file.text, find) ==>
      && SafeText(file.path, other)
      && forall n: nat :: IsProtected(Scan(file.text.value, find), n) ==>
           var line := ContentAt(LfLines(file.text.value), n);
           !("-- " <= line) && SafeText(line, other)
  }

  lemma {:induction false} DeletableMeans(protection: ProtectedFile, file: AllowedFile, find: string -> seq<Marker>, other: char -> bool)
    requires IsProtectionOf(protection, file, find) && !IsClean(file.text, find)
    ensures IsDeletable(file, find, other) <==> NoDashedLine(protection) && SafeDeletions(protection, other)
  {
  }

  /** What the parser asks of the strippeds files is what it asks of the files themselves. */
  lemma {:induction false} PlanIsDeletable(files: seq<AllowedFile>, find: string -> seq<Marker>, protected: seq<ProtectedFile>, other: char -> bool)
    requires PlanOf(files, find, protected)
    ensures (forall i :: 0 <= i < |files| ==> IsDeletable(files[i], find, other)) <==>
      forall i :: 0 <= i < |protected| ==> NoDashedLine(protected[i]) && SafeDeletions(protected[i], other)
  {
    if files != [] {
      var file := Last(files);
      if IsClean(file.text, find) {
        PlanIsDeletable(Front(files), find, protected, other);
      } else {
        PlanIsDeletable(Front(files), find, Front(protected), other);
        DeletableMeans(Last(protected), file, find, other);
        AllOfProtected(protected, other);
      }
      AllOfFiles(files, find, other);
    }
  }

  lemma {:induction false} AllOfProtected(protected: seq<ProtectedFile>, other: char -> bool)
    requires protected != []
    ensures (forall i :: 0 <= i < |protected| ==> NoDashedLine(protected[i]) && SafeDeletions(protected[i], other)) <==>
      && (forall i :: 0 <= i < |Front(protected)| ==> NoDashedLine(Front(protected)[i]) && SafeDeletions(Front(protected)[i], other))
      && NoDashedLine(Last(protected)) && SafeDeletions(Last(protected), other)
  {
    assert forall i :: 0 <= i < |protected| ==> protected[i] == if i < |protected| - 1 then Front(protected)[i] else Last(protected);
    assert forall i :: 0 <= i < |protected| - 1 ==> Front(protected)[i] == protected[i];
  }

  lemma {:induction false} AllOfFiles(files: seq<AllowedFile>, find: string -> seq<Marker>, other: char -> bool)
    requires files != []
    ensures (forall i :: 0 <= i < |files| ==> IsDeletable(files[i], find, other)) <==>
      (forall i :: 0 <= i < |Front(files)| ==> IsDeletable(Front(files)[i], find, other)) && IsDeletable(Last(files), find, other)
  {
    assert forall i :: 0 <= i < |files| ==> files[i] == if i < |files| - 1 then Front(files)[i] else Last(files);
    assert forall i :: 0 <= i < |files| - 1 ==> Front(files)[i] == files[i];
  }

  // ----- the selected ranges

  /** A protected range as the scan reports it: the lines of one matched pair. */
  ghost predicate IsPairRange(text: string, find: string -> seq<Marker>, r: Range) {
    exists name :: HasPairRange(text, find, name, r)
  }

  ghost predicate HasPairRange(text: string, find: string -> seq<Marker>, name: string, r: Range) {
    exists m :: m in MatchesOf(Scan(text, find), name) && RangeOf(m) == r
  }

  lemma {:induction false} MatchedRanges(matches: seq<Match>, text: string, find: string -> seq<Marker>, r: Range)
    requires forall name :: OfName(matches, name) == MatchesOf(Scan(text, find), name)
    ensures IsPairRange(text, find, r) <==> exists m :: m in matches && RangeOf(m) == r
  {
    if m :| m in matches && RangeOf(m) == r {
      InOfName(matches, m.name, m);
      assert HasPairRange(text, find, m.name, r);
    }
    if name :| HasPairRange(text, find, name, r) {
      var m :| m in MatchesOf(Scan(text, find), name) && RangeOf(m) == r;
      InOfName(matches, name, m);
    }
  }

  /** The range is one that the scan reports for an allowed file of that path. */
  ghost predicate IsFound(files: seq<AllowedFile>, find: string -> seq<Marker>, path: string, r: Range) {
    exists i :: 0 <= i < |files| && files[i].path == path && files[i].text.Some? && IsPairRange(files[i].text.value, find, r)
  }

  /** The distinct ranges of all allowed files. */
  method CollectRanges(files: seq<AllowedFile>, find: string -> seq<Marker>) returns (found: set<(string, Range)>)
    ensures forall path, r :: (path, r) in found <==> IsFound(files, find, path, r)
  {
    found := {};
    for i := 0 to |files|
      invariant forall path, r :: (path, r) in found <==> IsFound(files[..i], find, path, r)
    {
      ghost var before := found;
      if files[i].text.Some? {
        var matches := PairedRanges(files[i].text.value, find);
        var more := set m | m in matches :: (files[i].path, RangeOf(m));
        forall r ensures (files[i].path, r) in more <==> IsPairRange(files[i].text.value, find, r) {
          MatchedRanges(matches, files[i].text.value, find, r);
        }
        found := found + more;
      }
      forall path, r ensures (path, r) in found <==> IsFound(files[..i + 1], find, path, r) {
        FoundNext(files, find, i, path, r);
        assert (path, r) in before <==> IsFound(files[..i], find, path, r);
      }
    }
    assert files[..|files|] == files;
  }

  lemma {:induction false} FoundNext(files: seq<AllowedFile>, find: string -> seq<Marker>, i: nat, path: string, r: Range)
    requires i < |files|
    ensures IsFound(files[..i + 1], find, path, r) <==>
      IsFound(files[..i], find, path, r) || (files[i].path == path && files[i].text.Some? && IsPairRange(files[i].text.value, find, r))
  {
    var more := files[..i + 1];
    if k :| 0 <= k < |more| && more[k].path == path && more[k].text.Some? && IsPairRange(more[k].text.value, find, r) {
      assert k < i ==> files[..i][k] == more[k];
    }
    if k :| 0 <= k < i && files[k].path == path && files[k].text.Some? && IsPairRange(files[k].text.value, find, r) {
      assert more[k] == files[k];
    }
    assert more[i] == files[i];
  }

  /** What is known when the files of `done` have been stripped. */
  ghost predicate Prepared(done: seq<AllowedFile>, prompts: seq<Option<string>>, protected: seq<ProtectedFile>,
      find: string -> seq<Marker>, allowed: seq<string>)
  {
    && |prompts| == |done| <= |allowed| && IsPlan(protected, allowed) && FilesFit(protected)
    && PathsAmong(protected, allowed[..|done|]) && AllAgree(done, prompts, protected, find)
    && (protected == [] <==> AllClean(done, find)) && PlanOf(done, find, protected)
  }

  /** One more file of a repair. */
  method PrepareNext(file: AllowedFile, find: string -> seq<Marker>, prompts: seq<Option<string>>, protected: seq<ProtectedFile>,
      ghost done: seq<AllowedFile>, ghost allowed: seq<string>)
    returns (prompts': seq<Option<string>>, after: seq<ProtectedFile>)
    requires Prepared(done, prompts, protected, find, allowed)
    requires IsNext(done, file, allowed)
    ensures Prepared(done + [file], prompts', after, find, allowed)
  {
    var prompt;
    prompt, after := PrepareFile(file, find, protected, allowed, |done|);
    AllAgreeStill(done, prompts, protected, file, prompt, after, find);
    AllCleanStill(done, file, find);
    PlanOfMore(done, find, protected, file, after);
    prompts' := prompts + [prompt];
  }

  /** The files of a repair, each stripped of its protected lines, and what was stripped. */
  method PrepareFiles(files: seq<AllowedFile>, find: string -> seq<Marker>, ghost allowed: seq<string>)
    returns (prompts: seq<Option<string>>, protected: seq<ProtectedFile>)
    requires PathsAre(files, allowed) && PathsAscend(allowed)
    ensures FilesFit(protected) && IsPlan(protected, allowed) && PlanOf(files, find, protected)
    ensures |prompts| == |files| && AllAgree(files, prompts, protected, find)
    ensures protected == [] <==> AllClean(files, find)
  {
    protected, prompts := [], [];
    ghost var done: seq<AllowedFile> := [];
    NonePrepared(find, allowed);
    for i := 0 to |files|
      invariant done == files[..i] && Prepared(done, prompts, protected, find, allowed)
    {
      OneMore(files, i);
      PathIsNext(files, allowed, i);
      prompts, protected := PrepareNext(files[i], find, prompts, protected, done, allowed);
      done := done + [files[i]];
    }
    assert done == files;
  }

  lemma {:induction false} OneMore<T>(items: seq<T>, i: nat)
    requires i < |items|
    ensures items[..i + 1] == items[..i] + [items[i]]
  {
  }

  lemma {:induction false} NonePrepared(find: string -> seq<Marker>, allowed: seq<string>)
    ensures Prepared([], [], [], find, allowed)
  {
  }

  lemma {:induction false} SanitizedAgrees(path: string, text: string, ranges: seq<Range>, find: string -> seq<Marker>,
      before: seq<ProtectedFile>, allowed: seq<string>, i: nat)
    requires Separated(ranges) && CoversProtected(text, ranges, find)
    requires IsPlan(before, allowed) && FilesFit(before) && i < |allowed| && path == allowed[i] && PathsAmong(before, allowed[..i])
    requires IsAfter(allowed[..i], path)
    ensures
      var after := if ranges == [] then before else before + [ProtectedFile(path, text, ranges)];
      && FilesFit(after) && IsPlan(after, allowed) && PathsAmong(after, allowed[..i + 1])
      && Agrees(AllowedFile(path, Some(text)), Some(RemoveRanges(text, ranges)), after)
    ensures ranges == [] <==> !HasPairedMaterial(text, find)
  {
    ProtectedFits(text, ranges, find);
    RangesMeanPairs(text, ranges, find);
    PathsAmongMore(before, allowed, i);
    NewAgrees(path, text, ranges, before);
    if ranges != [] {
      PlanGrows(before, ProtectedFile(path, text, ranges), allowed, i);
    }
  }

  method PrepareFile(file: AllowedFile, find: string -> seq<Marker>, protected: seq<ProtectedFile>, ghost allowed: seq<string>, ghost i: nat)
    returns (prompt: Option<string>, after: seq<ProtectedFile>)
    requires IsPlan(protected, allowed) && FilesFit(protected) && i < |allowed| && file.path == allowed[i]
    requires PathsAmong(protected, allowed[..i]) && IsAfter(allowed[..i], file.path)
    ensures IsPlan(after, allowed) && FilesFit(after) && PathsAmong(after, allowed[..i + 1])
    ensures Agrees(file, prompt, after) && IsPrompt(file, prompt, find)
    ensures after == protected || (after != [] && Front(after) == protected && Last(after).path == file.path)
    ensures after == protected <==> IsClean(file.text, find)
    ensures after != protected ==> IsProtectionOf(Last(after), file, find)
  {
    prompt, after := None, protected;
    PathsAmongMore(protected, allowed, i);
    if file.text.Some? {
      var text := file.text.value;
      var clean, ranges := SanitizeFile(text, find);
      SanitizedAgrees(file.path, text, ranges, find, protected, allowed, i);
      StrippedIsPrompt(file.path, text, clean, ranges, find);
      prompt := Some(clean);
      if ranges != [] {
        after := protected + [ProtectedFile(file.path, text, ranges)];
      }
    }
  }

  lemma {:induction false} PathsAmongMore(protected: seq<ProtectedFile>, allowed: seq<string>, i: nat)
    requires i < |allowed| && PathsAmong(protected, allowed[..i]) && IsAfter(allowed[..i], allowed[i])
    ensures PathsAmong(protected, allowed[..i + 1]) && forall k :: 0 <= k < |protected| ==> protected[k].path != allowed[i]
  {
    forall k | 0 <= k < |protected| ensures protected[k].path in allowed[..i + 1] && protected[k].path != allowed[i] {
      var j :| 0 <= j < i && allowed[..i][j] == protected[k].path;
      assert allowed[..i + 1][j] == allowed[j];
      NotItself(allowed[i], 0);
    }
  }

  /** The limits of the policy on the deletion patch of a plan. */
  ghost predicate IsWithinLimits(protected: seq<ProtectedFile>, policy: Policy)
    requires FilesFit(protected)
  {
    && Utf8Length(PrintPatch(DeletionFiles(protected))) <= policy.maxPatchBytes
    && |protected| <= policy.maxPatchPaths && ProtectedLines(protected) <= policy.maxChangedLines
  }

  /** The parser's answer to the text of the plan. */
  method ParsePlan(protected: seq<ProtectedFile>, request: Request) returns (patch: Option<Parse<ParsedPatch>>)
    requires IsCanonicalPaths(request.allowedPaths, 1, 32, request.otherControl) && AsciiIsPlain(request.otherControl)
    requires IsPlan(protected, request.allowedPaths) && FilesFit(protected)
    ensures patch.None? <==> protected == []
    ensures patch.Some? ==> (patch.value.Ok? <==>
      && IsWithinLimits(protected, request.policy)
      && forall i :: 0 <= i < |protected| ==> NoDashedLine(protected[i]) && SafeDeletions(protected[i], request.otherControl))
    ensures patch.Some? && patch.value.Ok? ==> patch.value.value.files == DeletionFiles(protected)
  {
    var source := DeletionPatchSource(protected);
    if source.None? {
      return None;
    }
    var parsed := ReadWirePatch(source.value, request);
    AcceptedExactly(protected, request);
    return Some(parsed);
  }

  /** `_PrivateKeyPlan`, and the error for ranges that are not those of the scan. */
  datatype Plan = Plan(prompts: seq<Option<string>>, patch: Option<Parse<ParsedPatch>>) | InvalidTargets

  /** `_prepare_private_key_plan` on decoded files. It refuses unless the selected ranges are exactly
      those the scan reports. Otherwise every prompt file has exactly the unprotected lines of its file
      and holds no key pair, whatever becomes of the patch; there is a patch exactly when some file
      holds one; the parser accepts it exactly when the limits hold and every file is deletable; and
      applying it to the files then gives exactly the prompt files. */
  method PreparePlan(files: seq<AllowedFile>, selected: set<(string, Range)>, find: string -> seq<Marker>, request: Request)
    returns (plan: Plan, ghost protected: seq<ProtectedFile>)
    requires IsCanonicalPaths(request.allowedPaths, 1, 32, request.otherControl) && AsciiIsPlain(request.otherControl)
    requires PathsAre(files, request.allowedPaths)
    ensures plan.Plan? <==> forall path, r :: (path, r) in selected <==> IsFound(files, find, path, r)
    ensures plan.Plan? ==> FilesFit(protected) && PlanOf(files, find, protected)
    ensures plan.Plan? ==> ArePrompts(files, plan.prompts, find)
    ensures plan.Plan? ==> (plan.patch.None? <==> AllClean(files, find))
    ensures plan.Plan? && plan.patch.Some? ==> (plan.patch.value.Ok? <==>
      IsWithinLimits(protected, request.policy) && forall i :: 0 <= i < |files| ==> IsDeletable(files[i], find, request.otherControl))
    ensures plan.Plan? && plan.patch.Some? && plan.patch.value.Ok? ==>
      plan.patch.value.value.files == DeletionFiles(protected) && TurnsInto(plan.patch.value.value.files, files, plan.prompts)
  {
    protected := [];
    var found := CollectRanges(files, find);
    SameSet(selected, found);
    if selected != found {
      return InvalidTargets, protected;
    }
    var prompts, patch, stripped := DeleteRanges(files, find, request);
    return Plan(prompts, patch), stripped;
  }

  /** The prompt files and the deletion patch, the selected ranges being those of the scan. */
  method DeleteRanges(files: seq<AllowedFile>, find: string -> seq<Marker>, request: Request)
    returns (prompts: seq<Option<string>>, patch: Option<Parse<ParsedPatch>>, protected: seq<ProtectedFile>)
    requires IsCanonicalPaths(request.allowedPaths, 1, 32, request.otherControl) && AsciiIsPlain(request.otherControl)
    requires PathsAre(files, request.allowedPaths)
    ensures FilesFit(protected) && PlanOf(files, find, protected) && ArePrompts(files, prompts, find)
    ensures patch.None? <==> AllClean(files, find)
    ensures patch.Some? ==> (patch.value.Ok? <==>
      IsWithinLimits(protected, request.policy) && forall i :: 0 <= i < |files| ==> IsDeletable(files[i], find, request.otherControl))
    ensures patch.Some? && patch.value.Ok? ==>
      patch.value.value.files == DeletionFiles(protected) && TurnsInto(patch.value.value.files, files, prompts)
  {
    prompts, protected := PrepareFiles(files, find, request.allowedPaths);
    patch := ParsePlan(protected, request);
    PlanIsDeletable(files, find, protected, request.otherControl);
    AgreementMeans(files, prompts, protected, find, DeletionFiles(protected));
  }

  lemma {:induction false} AgreementMeans(files: seq<AllowedFile>, prompts: seq<Option<string>>, protected: seq<ProtectedFile>,
      find: string -> seq<Marker>, patch: seq<PatchFile>)
    requires FilesFit(protected) && |files| == |prompts| && AllAgree(files, prompts, protected, find) && patch == DeletionFiles(protected)
    ensures ArePrompts(files, prompts, find) && TurnsInto(patch, files, prompts)
  {
    forall i | 0 <= i < |files| ensures Agrees(files[i], prompts[i], protected) && IsPrompt(files[i], prompts[i], find) {
    }
  }

  lemma {:induction false} SameSet(a: set<(string, Range)>, b: set<(string, Range)>)
    ensures a == b <==> forall path, r :: (path, r) in a <==> (path, r) in b
  {
    if forall path, r :: (path, r) in a <==> (path, r) in b {
      forall x ensures x in a <==> x in b {
        assert x == (x.0, x.1);
      }
    }
  }
}

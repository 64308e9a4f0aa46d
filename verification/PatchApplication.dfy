/** Applying a parsed patch to a file's lines, by the unified-diff rules of IEEE Std 1003.1-2017:
    a range of zero lines is named by the line before it. */
module PatchApplication {
  import opened LineSplitting
  import opened WirePatch

  /** How far the old file has been read, and the new file so far. */
  datatype Progress = Progress(consumed: nat, output: seq<string>)

  /** The file line a content line stands for: without LF when a no-newline marker follows. */
  function FileLine(lines: seq<PatchLine>, k: nat): string
    requires k < |lines|
  {
    lines[k].content + if k + 1 < |lines| && lines[k + 1].kind == NoNewline then "" else "\n"
  }

  /** The first `k` lines of a hunk body, each checked against the old file. */
  function ApplyLines(lines0: seq<string>, lines: seq<PatchLine>, k: nat, start: Progress): Option<Progress>
    requires k <= |lines|
  {
    if k == 0 then Some(start)
    else
      match ApplyLines(lines0, lines, k - 1, start)
      case None => None
      case Some(p) =>
        var text := FileLine(lines, k - 1);
        match lines[k - 1].kind
        case NoNewline => Some(p)
        case Addition => Some(p.(output := p.output + [text]))
        case Context =>
          if p.consumed < |lines0| && lines0[p.consumed] == text then Some(Progress(p.consumed + 1, p.output + [text])) else None
        case Deletion =>
          if p.consumed < |lines0| && lines0[p.consumed] == text then Some(p.(consumed := p.consumed + 1)) else None
  }

  /** The number of lines before a range. */
  function LinesBefore(start: nat, count: nat): nat {
    if count > 0 && start > 0 then start - 1 else start
  }

  /** Copy up to the hunk, check that it starts where it says on both sides, then apply its body. */
  function ApplyHunk(lines0: seq<string>, hunk: PatchHunk, p: Progress): Option<Progress> {
    var c := hunk.coordinates;
    var before := LinesBefore(c.oldStart, c.oldCount);
    if !(p.consumed <= before <= |lines0|) then None
    else
      var output := p.output + lines0[p.consumed..before];
      if |output| != LinesBefore(c.newStart, c.newCount) then None
      else ApplyLines(lines0, hunk.lines, |hunk.lines|, Progress(before, output))
  }

  function ApplyHunks(lines0: seq<string>, hunks: seq<PatchHunk>): Option<Progress> {
    if hunks == [] then Some(Progress(0, []))
    else
      match ApplyHunks(lines0, Front(hunks))
      case None => None
      case Some(p) => ApplyHunk(lines0, Last(hunks), p)
  }

  /** The new file: everything after the last hunk is copied. */
  function ApplyFile(lines0: seq<string>, hunks: seq<PatchHunk>): Option<seq<string>> {
    match ApplyHunks(lines0, hunks)
    case None => None
    case Some(p) => if p.consumed <= |lines0| then Some(p.output + lines0[p.consumed..]) else None
  }

  /** Lines that follow, unless they start with a marker, do not change how a body begins. */
  lemma {:induction false} ApplyLonger(lines0: seq<string>, body: seq<PatchLine>, more: seq<PatchLine>, k: nat, start: Progress)
    requires k <= |body| && (more != [] ==> more[0].kind != NoNewline)
    ensures ApplyLines(lines0, body + more, k, start) == ApplyLines(lines0, body, k, start)
    decreases k
  {
    if k > 0 {
      ApplyLonger(lines0, body, more, k - 1, start);
      assert FileLine(body + more, k - 1) == FileLine(body, k - 1);
    }
  }
}

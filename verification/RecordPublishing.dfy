/** The stages of writing a record through a temporary file, a hard link and an unlink, and what
    each stage leaves behind when the process dies there. */
module RecordPublishing {
  import opened LineSplitting
  import opened DirectoryModel

  // ----- the stages, from a clean directory

  /** The temporary exists; `content` has been written so far. */
  function Draft<K(==)>(before: Disk<K>, temporary: Name<K>, inode: nat, mode: Mode, content: string): Disk<K> {
    Disk(before.names[temporary := inode], before.inodes[inode := Inode(mode, 1, content)])
  }

  /** The record is linked to the temporary's inode. */
  function Published<K(==)>(before: Disk<K>, temporary: Name<K>, key: K, inode: nat, value: string): Disk<K> {
    Disk(before.names[temporary := inode][Record(key) := inode], before.inodes[inode := Inode(ReadOnly, 2, value)])
  }

  /** The temporary is gone. */
  function Finished<K(==)>(before: Disk<K>, key: K, inode: nat, value: string): Disk<K> {
    Disk(before.names[Record(key) := inode], before.inodes[inode := Inode(ReadOnly, 1, value)])
  }

  /** The temporary is gone and was never linked. */
  function Abandoned<K(==)>(before: Disk<K>, inode: nat, mode: Mode, content: string): Disk<K> {
    before.(inodes := before.inodes[inode := Inode(mode, 0, content)])
  }

  predicate CanStart<K(==)>(before: Disk<K>, temporary: Name<K>, inode: nat) {
    temporary.Temporary? && temporary !in before.names && inode !in before.inodes
  }

  // ----- each system call moves to the next stage

  lemma {:induction false} WriteMoves<K(!new)>(before: Disk<K>, temporary: Name<K>, inode: nat, mode: Mode, content: string, mode': Mode, content': string)
    ensures Rewritten(Draft(before, temporary, inode, mode, content), inode, mode', content')
      == Draft(before, temporary, inode, mode', content')
  {
  }

  lemma {:induction false} LinkMoves<K(!new)>(before: Disk<K>, temporary: Name<K>, key: K, inode: nat, value: string)
    requires Clean(before) && CanStart(before, temporary, inode) && Record(key) !in before.names
    ensures
      var draft := Draft(before, temporary, inode, ReadOnly, value);
      && Valid(draft) && Record(key) !in draft.names && LinkMade(draft, temporary, Record(key)) == Published(before, temporary, key, inode, value)
  {
  }

  lemma {:induction false} UnlinkMoves<K(!new)>(before: Disk<K>, temporary: Name<K>, key: K, inode: nat, value: string)
    requires Clean(before) && CanStart(before, temporary, inode) && Record(key) !in before.names
    ensures
      var published := Published(before, temporary, key, inode, value);
      && Valid(published) && temporary in published.names && Stat(published, temporary).links == 2
      && Unlinked(published, temporary) == Finished(before, key, inode, value)
  {
    assert before.names[temporary := inode][Record(key) := inode] - {temporary} == before.names[Record(key) := inode];
  }

  lemma {:induction false} AbandonMoves<K(!new)>(before: Disk<K>, temporary: Name<K>, inode: nat, mode: Mode, content: string)
    requires Clean(before) && CanStart(before, temporary, inode)
    ensures
      var draft := Draft(before, temporary, inode, mode, content);
      && Valid(draft) && Stat(draft, temporary).links == 1 && Unlinked(draft, temporary) == Abandoned(before, inode, mode, content)
  {
    assert before.names[temporary := inode] - {temporary} == before.names;
  }

  // ----- dying at each stage

  lemma {:induction false} DraftRecovers<K(!new)>(before: Disk<K>, temporary: Name<K>, inode: nat, mode: Mode, content: string)
    requires Clean(before) && CanStart(before, temporary, inode) && mode in {ReadOnly, Writable}
    ensures var draft := Draft(before, temporary, inode, mode, content); Recoverable(draft) && SameContents(before, draft)
  {
    var draft := Draft(before, temporary, inode, mode, content);
    assert Valid(draft);
    forall name | name in draft.names
      ensures (!name.Temporary? && IsSettled(draft, name)) || IsUnpublished(draft, name)
    {
      if name != temporary {
        assert IsSettled(before, name);
        assert Alone(draft, name);
      } else {
        assert Alone(draft, name);
      }
    }
  }

  lemma {:induction false} PublishedRecovers<K(!new)>(before: Disk<K>, temporary: Name<K>, key: K, inode: nat, value: string)
    requires Clean(before) && CanStart(before, temporary, inode) && Record(key) !in before.names
    requires temporary.hint.Some? ==> temporary.hint.value == key
    ensures
      var published := Published(before, temporary, key, inode, value);
      Recoverable(published) && OldOrNew(before, published, key, value) && ContentOf(published, key) == Some(value)
  {
    var published := Published(before, temporary, key, inode, value);
    assert Valid(published);
    assert Linked(published, temporary, Record(key));
    forall name | name in published.names
      ensures (!name.Temporary? && IsSettled(published, name)) || (!name.LockFile? && IsHalfPublished(published, name))
    {
      if name != temporary && name != Record(key) {
        assert IsSettled(before, name);
        assert Alone(published, name);
      }
    }
  }

  lemma {:induction false} FinishedIsClean<K(!new)>(before: Disk<K>, temporary: Name<K>, key: K, inode: nat, value: string)
    requires Clean(before) && CanStart(before, temporary, inode) && Record(key) !in before.names
    ensures
      var finished := Finished(before, key, inode, value);
      Clean(finished) && OldOrNew(before, finished, key, value) && ContentOf(finished, key) == Some(value)
  {
    var finished := Finished(before, key, inode, value);
    assert Valid(finished);
    forall name | name in finished.names ensures !name.Temporary? && IsSettled(finished, name) {
      if name != Record(key) {
        assert IsSettled(before, name);
        assert Alone(finished, name);
      } else {
        assert Alone(finished, name);
      }
    }
  }

  lemma {:induction false} AbandonedIsClean<K(!new)>(before: Disk<K>, inode: nat, mode: Mode, content: string)
    requires Clean(before) && inode !in before.inodes
    ensures Clean(Abandoned(before, inode, mode, content)) && SameContents(before, Abandoned(before, inode, mode, content))
  {
    var after := Abandoned(before, inode, mode, content);
    assert Valid(after);
    forall name | name in after.names ensures !name.Temporary? && IsSettled(after, name) {
      assert IsSettled(before, name);
      assert Alone(after, name);
    }
  }

  lemma {:induction false} CleanIsRecoverable<K(!new)>(disk: Disk<K>)
    requires Clean(disk)
    ensures Recoverable(disk)
  {
  }

  // ----- writing it

  /** `_write_all`: short writes, and a crash between any two of them. */
  method WriteAll<K(==,!new)>(dir: Directory<K>, ghost before: Disk<K>, ghost temporary: Name<K>, inode: nat, ghost start: string, value: string)
    returns (progress: Progress, ghost written: string)
    requires dir.disk == Draft(before, temporary, inode, Writable, start)
    modifies dir
    ensures dir.disk == Draft(before, temporary, inode, Writable, written)
    ensures start <= written <= start + value && (progress.Continued? ==> written == start + value)
    ensures dir.faults >= old(dir.faults) && (progress.Continued? <==> dir.faults == old(dir.faults))
  {
    progress, written := Continued, start;
    var offset := 0;
    while offset < |value|
      invariant offset <= |value| && written == start + value[..offset]
      invariant dir.disk == Draft(before, temporary, inode, Writable, written)
      invariant progress.Continued? && dir.faults == old(dir.faults)
    {
      progress := dir.Trouble();
      if !progress.Continued? {
        return;
      }
      var count: nat :| 0 < count <= |value| - offset;
      var text := value[offset..offset + count];
      WriteMoves(before, temporary, inode, Writable, written, Writable, written + text);
      dir.Write(inode, text);
      assert value[..offset + count] == value[..offset] + text;
      written := written + text;
      offset := offset + count;
    }
    assert value[..offset] == value;
  }

  /** Where a writer that did not finish may have left the disk. */
  datatype Stage = NotOpened | Drafted | LinkedTwice | Done

  /** The disk at a stage; `mode` and `content` matter while the temporary is a draft. */
  function DiskAt<K(==)>(stage: Stage, before: Disk<K>, temporary: Name<K>, key: K, inode: nat, value: string, mode: Mode, content: string): Disk<K> {
    match stage
    case NotOpened => before
    case Drafted => Draft(before, temporary, inode, mode, content)
    case LinkedTwice => Published(before, temporary, key, inode, value)
    case Done => Finished(before, key, inode, value)
  }

  /** Open, write, chmod, link, unlink: any of them may raise, and the process may die between
      any two. The kernel picks the inode. */
  method Publish<K(==,!new)>(dir: Directory<K>, temporary: Name<K>, key: K, inode: nat, value: string)
    returns (progress: Progress, ghost stage: Stage, ghost mode: Mode, ghost content: string)
    requires Clean(dir.disk) && CanStart(dir.disk, temporary, inode)
    modifies dir
    ensures dir.disk == DiskAt(stage, old(dir.disk), temporary, key, inode, value, mode, content)
    ensures mode in {ReadOnly, Writable} && content <= value && (mode.ReadOnly? ==> content == value)
    ensures (stage in {LinkedTwice, Done} ==> Record(key) !in old(dir.disk).names)
    ensures progress.Continued? ==> stage.Done?
    ensures dir.faults >= old(dir.faults)
    ensures progress.Continued? <==> dir.faults == old(dir.faults) && Record(key) !in old(dir.disk).names
  {
    ghost var before := dir.disk;
    stage, mode, content := NotOpened, Writable, "";
    progress := dir.Trouble();
    if !progress.Continued? {
      return;
    }
    dir.Open(temporary, inode);
    stage := Drafted;
    progress, content := WriteAll(dir, before, temporary, inode, "", value);
    if !progress.Continued? {
      return;
    }
    progress := dir.Trouble();
    if !progress.Continued? {
      return;
    }
    assert content == value;
    WriteMoves(before, temporary, inode, Writable, value, ReadOnly, value);
    dir.Chmod(inode, ReadOnly);
    mode := ReadOnly;
    progress := dir.Trouble();
    if !progress.Continued? {
      return;
    }
    assert Valid(dir.disk) && temporary in dir.disk.names;
    var ok := dir.Link(temporary, Record(key));
    if !ok {
      progress := Raised;
      return;
    }
    LinkMoves(before, temporary, key, inode, value);
    stage := LinkedTwice;
    progress := dir.Trouble();
    if !progress.Continued? {
      return;
    }
    UnlinkMoves(before, temporary, key, inode, value);
    dir.Unlink(temporary);
    stage := Done;
    progress := dir.Trouble();
  }

  /** Whatever the stage, recovery understands the disk, and the records are the old ones or the
      old ones with the complete new one. */
  lemma {:induction false} EveryStageRecovers<K(!new)>(stage: Stage, before: Disk<K>, temporary: Name<K>, key: K, inode: nat, value: string, mode: Mode, content: string)
    requires Clean(before) && CanStart(before, temporary, inode) && mode in {ReadOnly, Writable}
    requires temporary.hint.Some? ==> temporary.hint.value == key
    requires stage in {LinkedTwice, Done} ==> Record(key) !in before.names
    ensures
      var disk := DiskAt(stage, before, temporary, key, inode, value, mode, content);
      && Recoverable(disk) && OldOrNew(before, disk, key, value)
      && (stage.Done? ==> Clean(disk) && ContentOf(disk, key) == Some(value))
  {
    match stage
    case NotOpened =>
    case Drafted => DraftRecovers(before, temporary, inode, mode, content);
    case LinkedTwice => PublishedRecovers(before, temporary, key, inode, value);
    case Done => FinishedIsClean(before, temporary, key, inode, value);
  }
}

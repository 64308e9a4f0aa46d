/** A directory as the crash-safe writers see it: names, inodes with link counts, and the five
    system calls that change them. */
module DirectoryModel {
  import opened LineSplitting

  /** 0o400 and 0o600, and everything else. */
  datatype Mode = ReadOnly | Writable | OtherMode

  datatype Inode = Inode(mode: Mode, links: nat, content: string)

  /** A final record, a temporary (which may tell the record it is for), or the lock file. */
  datatype Name<!K(==)> = Record(key: K) | Temporary(hint: Option<K>, token: nat) | LockFile

  datatype Disk<!K(==)> = Disk(names: map<Name<K>, nat>, inodes: map<nat, Inode>)

  /** Every name leads to an inode. */
  predicate Valid<K(==)>(disk: Disk<K>) {
    forall name :: name in disk.names ==> disk.names[name] in disk.inodes
  }

  function Stat<K(==)>(disk: Disk<K>, name: Name<K>): Inode
    requires Valid(disk) && name in disk.names
  {
    disk.inodes[disk.names[name]]
  }

  /** What a reader finds under a record name. */
  function ContentOf<K(==)>(disk: Disk<K>, key: K): Option<string>
    requires Valid(disk)
  {
    if Record(key) in disk.names then Some(Stat(disk, Record(key)).content) else None
  }

  ghost predicate SameContents<K(!new)>(a: Disk<K>, b: Disk<K>)
    requires Valid(a) && Valid(b)
  {
    forall key: K :: ContentOf(a, key) == ContentOf(b, key)
  }

  /** The contents before, except that one record may now be there with its complete value. */
  ghost predicate OldOrNew<K(!new)>(before: Disk<K>, after: Disk<K>, key: K, value: string)
    requires Valid(before) && Valid(after)
  {
    && (forall other: K :: other != key ==> ContentOf(after, other) == ContentOf(before, other))
    && (ContentOf(after, key) == ContentOf(before, key) || (ContentOf(before, key).None? && ContentOf(after, key) == Some(value)))
  }

  // ----- what crashes may leave

  /** No other name leads to the inode of this one. */
  ghost predicate Alone<K(!new)>(disk: Disk<K>, name: Name<K>)
    requires name in disk.names
  {
    forall other :: other in disk.names && disk.names[other] == disk.names[name] ==> other == name
  }

  /** A temporary and its record are the two links of one inode. */
  ghost predicate Linked<K(!new)>(disk: Disk<K>, temporary: Name<K>, record: Name<K>) {
    && temporary in disk.names && record in disk.names && disk.names[temporary] == disk.names[record]
    && temporary.Temporary? && record.Record? && (temporary.hint.Some? ==> temporary.hint.value == record.key)
    && forall other :: other in disk.names && disk.names[other] == disk.names[record] ==> other in {temporary, record}
  }

  /** A record nobody is writing: read-only, one link. */
  ghost predicate IsSettled<K(!new)>(disk: Disk<K>, name: Name<K>)
    requires Valid(disk) && name in disk.names
  {
    Alone(disk, name) && Stat(disk, name).links == 1 && (name.Record? ==> Stat(disk, name).mode == ReadOnly)
  }

  /** One that was published but still has its temporary. */
  ghost predicate IsHalfPublished<K(!new)>(disk: Disk<K>, name: Name<K>)
    requires Valid(disk) && name in disk.names
  {
    && Stat(disk, name).links == 2 && Stat(disk, name).mode == ReadOnly
    && if name.Record? then exists t :: Linked(disk, t, name)
       else exists r :: Linked(disk, name, r)
  }

  ghost predicate IsUnpublished<K(!new)>(disk: Disk<K>, name: Name<K>)
    requires Valid(disk) && name in disk.names
  {
    name.Temporary? && Alone(disk, name) && Stat(disk, name).links == 1 && Stat(disk, name).mode in {ReadOnly, Writable}
  }

  /** Nothing is under way. */
  ghost predicate Clean<K(!new)>(disk: Disk<K>) {
    Valid(disk) && forall name :: name in disk.names ==> !name.Temporary? && IsSettled(disk, name)
  }

  /** What a crash of a writer leaves: settled records, and temporaries that recovery understands. */
  ghost predicate Recoverable<K(!new)>(disk: Disk<K>) {
    && Valid(disk)
    && forall name :: name in disk.names ==>
         || (!name.Temporary? && IsSettled(disk, name))
         || IsUnpublished(disk, name)
         || (!name.LockFile? && IsHalfPublished(disk, name))
  }

  // ----- system calls, as functions of the disk

  function Opened<K(==)>(disk: Disk<K>, name: Name<K>, inode: nat): Disk<K> {
    Disk(disk.names[name := inode], disk.inodes[inode := Inode(Writable, 1, "")])
  }

  function LinkMade<K(==)>(disk: Disk<K>, source: Name<K>, target: Name<K>): Disk<K>
    requires Valid(disk) && source in disk.names
  {
    var inode := disk.names[source];
    Disk(disk.names[target := inode], disk.inodes[inode := disk.inodes[inode].(links := disk.inodes[inode].links + 1)])
  }

  function Unlinked<K(==)>(disk: Disk<K>, name: Name<K>): Disk<K>
    requires Valid(disk) && name in disk.names && Stat(disk, name).links > 0
  {
    var inode := disk.names[name];
    Disk(disk.names - {name}, disk.inodes[inode := disk.inodes[inode].(links := disk.inodes[inode].links - 1)])
  }

  function Rewritten<K(==)>(disk: Disk<K>, inode: nat, mode: Mode, content: string): Disk<K>
    requires inode in disk.inodes
  {
    disk.(inodes := disk.inodes[inode := disk.inodes[inode].(mode := mode, content := content)])
  }

  /** What removing the temporary of a recoverable directory does. */
  lemma {:induction false} RemoveTemporary<K(!new)>(disk: Disk<K>, name: Name<K>)
    requires Recoverable(disk) && name in disk.names && name.Temporary?
    ensures Recoverable(Unlinked(disk, name)) && SameContents(disk, Unlinked(disk, name))
  {
    var after := Unlinked(disk, name);
    var inode := disk.names[name];
    assert Valid(after);
    forall other | other in after.names
      ensures (!other.Temporary? && IsSettled(after, other)) || IsUnpublished(after, other) || (!other.LockFile? && IsHalfPublished(after, other))
    {
      assert other in disk.names && after.names[other] == disk.names[other];
      if disk.names[other] == inode {
        assert IsHalfPublished(disk, name);
        var r :| Linked(disk, name, r);
        assert other == r;
        assert Alone(after, other);
      } else {
        assert Stat(after, other) == Stat(disk, other);
        if IsHalfPublished(disk, other) && other.Record? {
          var t :| Linked(disk, t, other);
          assert Linked(after, t, other);
        } else if IsHalfPublished(disk, other) && other.Temporary? {
          var r :| Linked(disk, other, r);
          assert Linked(after, other, r);
        } else {
          assert Alone(after, other);
        }
      }
    }
  }

  /** How a step ended: it went on, an error was raised, or the process died. */
  datatype Progress = Continued | Raised | Died

  class Directory<K(==,!new)> {
    var disk: Disk<K>
    /** How often a call failed or the process died so far. */
    ghost var faults: nat

    constructor (disk: Disk<K>)
      ensures this.disk == disk && faults == 0
    {
      this.disk, faults := disk, 0;
    }

    /** What may happen between any two calls: nothing, the next call fails, or the process dies. */
    method Trouble() returns (progress: Progress)
      modifies this`faults
      ensures faults == if progress.Continued? then old(faults) else old(faults) + 1
    {
      if * {
        progress := Continued;
      } else if * {
        progress := Raised;
      } else {
        progress := Died;
      }
      if !progress.Continued? {
        faults := faults + 1;
      }
    }

    /** `open` with O_CREAT and O_EXCL; the kernel picks the inode. */
    method Open(name: Name<K>, inode: nat)
      requires name !in disk.names && inode !in disk.inodes
      modifies this`disk
      ensures disk == Opened(old(disk), name, inode)
    {
      disk := Opened(disk, name, inode);
    }

    method Write(inode: nat, text: string)
      requires inode in disk.inodes
      modifies this`disk
      ensures disk == Rewritten(old(disk), inode, old(disk).inodes[inode].mode, old(disk).inodes[inode].content + text)
    {
      disk := Rewritten(disk, inode, disk.inodes[inode].mode, disk.inodes[inode].content + text);
    }

    method Chmod(inode: nat, mode: Mode)
      requires inode in disk.inodes
      modifies this`disk
      ensures disk == Rewritten(old(disk), inode, mode, old(disk).inodes[inode].content)
    {
      disk := Rewritten(disk, inode, mode, disk.inodes[inode].content);
    }

    /** `link`: fails when the target exists. */
    method Link(source: Name<K>, target: Name<K>) returns (ok: bool)
      requires Valid(disk) && source in disk.names
      modifies this`disk
      ensures ok <==> target !in old(disk).names
      ensures disk == if ok then LinkMade(old(disk), source, target) else old(disk)
    {
      ok := target !in disk.names;
      if ok {
        disk := LinkMade(disk, source, target);
      }
    }

    method Unlink(name: Name<K>)
      requires Valid(disk) && name in disk.names && Stat(disk, name).links > 0
      modifies this`disk
      ensures disk == Unlinked(old(disk), name)
    {
      disk := Unlinked(disk, name);
    }
  }
}

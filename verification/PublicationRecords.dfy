/** The records of a GitHub publication: compare-and-set writes that survive a crash at any
    checkpoint, and the recovery that runs at every lock acquisition. */
module PublicationRecords {
  import opened LineSplitting
  import opened DirectoryModel
  import opened RecordPublishing

  datatype RecordKey = ProposalRecord | BindingRecord | ApprovalRecord | BranchRecord | ResultRecord

  type RecordDirectory = Directory<RecordKey>

  const PROPOSAL_MAX := 4 * 1024 * 1024

  /** `_RECORD_LIMITS` */
  function LimitOf(key: RecordKey): (limit: nat)
    ensures 0 < limit <= PROPOSAL_MAX
  {
    match key
    case ProposalRecord => PROPOSAL_MAX
    case BindingRecord => 1024
    case ApprovalRecord => 64 * 1024
    case BranchRecord => 1024 * 1024
    case ResultRecord => 1024 * 1024
  }

  // ----- what crashes may leave here

  /** Every record is non-empty and within its limit. */
  predicate SizesOk(disk: Disk<RecordKey>)
    requires Valid(disk)
  {
    forall key :: Record(key) in disk.names ==> 0 < |Stat(disk, Record(key)).content| <= LimitOf(key)
  }

  ghost predicate IsStore(disk: Disk<RecordKey>) { Clean(disk) && SizesOk(disk) }

  /** A temporary recovery can judge: not too long, and not empty once read-only. */
  predicate IsPlausible(inode: Inode) {
    |inode.content| <= PROPOSAL_MAX && !(inode.mode == ReadOnly && inode.content == "")
  }

  /** At most one write was under way. */
  ghost predicate IsInterrupted(disk: Disk<RecordKey>) {
    && Recoverable(disk) && SizesOk(disk)
    && (forall a, b :: a in disk.names && b in disk.names && a.Temporary? && b.Temporary? ==> a == b)
    && (forall name :: name in disk.names && name.Temporary? ==> name.hint.None? && IsPlausible(Stat(disk, name)))
  }

  // ----- reading

  datatype Reading = Absent | Unsafe | Found(content: string)

  /** `_read_record` */
  function ReadRecord(disk: Disk<RecordKey>, key: RecordKey): Reading
    requires Valid(disk)
  {
    if Record(key) !in disk.names then Absent
    else
      var file := Stat(disk, Record(key));
      if file.mode != ReadOnly || file.links != 1 || !(0 < |file.content| <= LimitOf(key)) then Unsafe else Found(file.content)
  }

  /** In a settled store every record reads as what it holds. */
  lemma {:induction false} StoreIsReadable(disk: Disk<RecordKey>, key: RecordKey)
    requires IsStore(disk)
    ensures ReadRecord(disk, key) == if ContentOf(disk, key).None? then Absent else Found(ContentOf(disk, key).value)
  {
    if Record(key) in disk.names {
      assert IsSettled(disk, Record(key));
    }
  }

  // ----- writing

  datatype CasOutcome = Stored | InvalidIdentity | StateConflict | CorruptState | IoFailed | CasDied

  /** `_write_cas_record`, in a store that recovery has settled. The same bytes again succeed
      without a write; other bytes conflict; and whatever interrupts a first write leaves the
      record absent or complete, the others untouched, and a disk that recovery understands. */
  method WriteCasRecord(dir: RecordDirectory, key: RecordKey, value: string, token: nat, inode: nat) returns (outcome: CasOutcome)
    requires IsStore(dir.disk) && CanStart(dir.disk, Temporary(None, token), inode)
    modifies dir
    ensures outcome.InvalidIdentity? <==> !(0 < |value| <= LimitOf(key))
    ensures outcome.StateConflict? <==> 0 < |value| <= LimitOf(key) && ContentOf(old(dir.disk), key) !in {None, Some(value)}
    ensures !outcome.CorruptState? && dir.faults >= old(dir.faults) && (outcome in {IoFailed, CasDied} ==> dir.faults > old(dir.faults))
    ensures ContentOf(old(dir.disk), key) == Some(value) && 0 < |value| <= LimitOf(key) ==> outcome.Stored?
    ensures Valid(dir.disk)
    ensures outcome.Stored? ==> IsStore(dir.disk) && ContentOf(dir.disk, key) == Some(value)
    ensures ContentOf(old(dir.disk), key).Some? || outcome.InvalidIdentity? ==> dir.disk == old(dir.disk)
    ensures IsInterrupted(dir.disk) && OldOrNew(old(dir.disk), dir.disk, key, value)
    ensures dir.disk.inodes.Keys <= old(dir.disk).inodes.Keys + {inode}
  {
    ghost var before := dir.disk;
    StoreIsReadable(before, key);
    CleanIsRecoverable(before);
    if |value| == 0 || |value| > LimitOf(key) {
      return InvalidIdentity;
    }
    match ReadRecord(dir.disk, key) {
      case Found(existing) => return if existing == value then Stored else StateConflict;
      case Unsafe => return CorruptState;
      case Absent =>
    }
    var temporary := Temporary(None, token);
    var progress;
    ghost var stage, mode, content;
    progress, stage, mode, content := Publish(dir, temporary, key, inode, value);
    StageIsInterrupted(stage, before, temporary, key, inode, value, mode, content);
    if progress.Continued? {
      return Stored;
    }
    if progress.Died? {
      return CasDied;
    }
    var linked := Record(key) in dir.disk.names;
    if !linked && temporary in dir.disk.names {
      progress := dir.Trouble();
      if !progress.Continued? {
        return if progress.Died? then CasDied else IoFailed;
      }
      AbandonMoves(before, temporary, inode, mode, content);
      AbandonedIsClean(before, inode, mode, content);
      dir.Unlink(temporary);
      CleanIsRecoverable(dir.disk);
    }
    return IoFailed;
  }

  lemma {:induction false} StageIsInterrupted(stage: Stage, before: Disk<RecordKey>, temporary: Name<RecordKey>, key: RecordKey, inode: nat,
      value: string, mode: Mode, content: string)
    requires IsStore(before) && CanStart(before, temporary, inode) && temporary.hint.None? && mode in {ReadOnly, Writable}
    requires 0 < |value| <= LimitOf(key) && content <= value && (mode.ReadOnly? ==> content == value)
    requires Record(key) !in before.names
    ensures
      var disk := DiskAt(stage, before, temporary, key, inode, value, mode, content);
      && IsInterrupted(disk) && OldOrNew(before, disk, key, value)
      && (stage.Done? ==> IsStore(disk) && ContentOf(disk, key) == Some(value))
      && (stage.Drafted? <==> temporary in disk.names && Record(key) !in disk.names)
  {
    EveryStageRecovers(stage, before, temporary, key, inode, value, mode, content);
  }

  // ----- recovery

  function Temporaries(disk: Disk<RecordKey>): set<Name<RecordKey>> { set name | name in disk.names && name.Temporary? }

  /** What recovery asks of the one temporary it meets: its mode, its size, and one record that shares
      its inode when it has two links. */
  ghost predicate IsRemovable(disk: Disk<RecordKey>, name: Name<RecordKey>) {
    && Valid(disk) && name in disk.names && name.Temporary?
    && var file := Stat(disk, name);
       && file.mode in {ReadOnly, Writable} && file.links in {1, 2} && IsPlausible(file)
       && (file.links == 2 ==> HasLinkedRecord(disk, name))
  }

  /** `_recover_record_temporary`: what a crash left is settled, and no record changes. */
  method RecoverRecordTemporary(dir: RecordDirectory) returns (ok: bool)
    requires Valid(dir.disk)
    modifies dir
    ensures dir.disk.inodes.Keys == old(dir.disk).inodes.Keys && dir.faults == old(dir.faults)
    ensures IsInterrupted(old(dir.disk)) ==> ok && IsStore(dir.disk) && SameContents(old(dir.disk), dir.disk)
    ensures ok <==> Temporaries(old(dir.disk)) == {} || exists name :: Temporaries(old(dir.disk)) == {name} && IsRemovable(old(dir.disk), name)
    ensures dir.disk == old(dir.disk) || (exists name :: Temporaries(old(dir.disk)) == {name} && ok && dir.disk == Unlinked(old(dir.disk), name))
    ensures ok ==> Temporaries(dir.disk) == {}
  {
    var temporaries := Temporaries(dir.disk);
    if temporaries == {} {
      NothingToRecover(dir.disk, temporaries);
      return true;
    }
    if |temporaries| != 1 {
      OneTemporary(dir.disk, temporaries);
      return false;
    }
    var temporary :| temporary in temporaries;
    OnlyMember(temporaries, temporary);
    assert temporaries == {temporary};
    var metadata := Stat(dir.disk, temporary);
    if metadata.mode !in {ReadOnly, Writable} || metadata.links !in {1, 2} || !IsPlausible(metadata) {
      return false;
    }
    if metadata.links == 2 {
      var safe, final := FindLinkedRecord(dir, temporary);
      if !safe {
        return false;
      }
    }
    if IsInterrupted(dir.disk) {
      RemoveTemporary(dir.disk, temporary);
      OnlyOne(dir.disk, temporaries, temporary);
      AfterRemoval(dir.disk, temporary);
    }
    dir.Unlink(temporary);
    return true;
  }

  lemma {:induction false} NothingToRecover(disk: Disk<RecordKey>, temporaries: set<Name<RecordKey>>)
    requires temporaries == (set name | name in disk.names && name.Temporary?) && temporaries == {}
    ensures IsInterrupted(disk) ==> IsStore(disk)
  {
    forall name | name in disk.names ensures !name.Temporary? {
      assert name.Temporary? ==> name in temporaries;
    }
    if IsInterrupted(disk) {
      AllSettled(disk);
    }
  }

  lemma {:induction false} AllSettled(disk: Disk<RecordKey>)
    requires Recoverable(disk) && forall name :: name in disk.names ==> !name.Temporary?
    ensures Clean(disk)
  {
    forall name | name in disk.names ensures IsSettled(disk, name) {
      assert !IsUnpublished(disk, name);
    }
  }

  lemma {:induction false} OneTemporary(disk: Disk<RecordKey>, temporaries: set<Name<RecordKey>>)
    requires temporaries == set name | name in disk.names && name.Temporary?
    requires temporaries != {}
    ensures IsInterrupted(disk) ==> |temporaries| == 1
  {
    var one :| one in temporaries;
    if IsInterrupted(disk) {
      assert temporaries == {one};
    }
  }

  lemma {:induction false} OnlyOne(disk: Disk<RecordKey>, temporaries: set<Name<RecordKey>>, temporary: Name<RecordKey>)
    requires temporaries == (set name | name in disk.names && name.Temporary?) && |temporaries| == 1 && temporary in temporaries
    ensures forall name :: name in disk.names && name.Temporary? ==> name == temporary
  {
    OnlyMember(temporaries, temporary);
    forall name | name in disk.names && name.Temporary? ensures name == temporary {
      assert name in temporaries;
    }
  }

  lemma {:induction false} AfterRemoval(disk: Disk<RecordKey>, temporary: Name<RecordKey>)
    requires IsInterrupted(disk) && temporary in disk.names && temporary.Temporary? && Stat(disk, temporary).links > 0
    requires forall name :: name in disk.names && name.Temporary? ==> name == temporary
    requires Recoverable(Unlinked(disk, temporary)) && SameContents(disk, Unlinked(disk, temporary))
    ensures IsStore(Unlinked(disk, temporary))
  {
    var after := Unlinked(disk, temporary);
    AllSettled(after);
    forall key | Record(key) in after.names ensures 0 < |Stat(after, Record(key)).content| <= LimitOf(key) {
      assert ContentOf(after, key) == ContentOf(disk, key);
    }
  }

  /** `key` is the only record that shares the temporary's inode, and it fits its own limit. */
  ghost predicate IsTheLinkedRecord(disk: Disk<RecordKey>, temporary: Name<RecordKey>, key: RecordKey)
    requires Valid(disk) && temporary in disk.names
  {
    && (forall other :: Record(other) in disk.names && disk.names[Record(other)] == disk.names[temporary] <==> other == key)
    && Stat(disk, temporary).mode == ReadOnly && 0 < |Stat(disk, temporary).content| <= LimitOf(key)
  }

  ghost predicate HasLinkedRecord(disk: Disk<RecordKey>, temporary: Name<RecordKey>)
    requires Valid(disk) && temporary in disk.names
  {
    exists key :: IsTheLinkedRecord(disk, temporary, key)
  }

  /** The two-link case: it finds the one record that shares the inode, and refuses when there is
      none, more than one, or one that does not fit. */
  method FindLinkedRecord(dir: RecordDirectory, temporary: Name<RecordKey>) returns (safe: bool, final: Option<RecordKey>)
    requires Valid(dir.disk) && temporary in dir.disk.names && temporary.Temporary? && Stat(dir.disk, temporary).links == 2
    ensures safe <==> HasLinkedRecord(dir.disk, temporary)
    ensures safe ==> final.Some? && IsTheLinkedRecord(dir.disk, temporary, final.value)
    ensures IsInterrupted(dir.disk) ==> safe
  {
    var metadata := Stat(dir.disk, temporary);
    final := None;
    if IsInterrupted(dir.disk) {
      LinkedRecordExists(dir.disk, temporary);
    }
    if metadata.mode != ReadOnly || metadata.content == "" {
      return false, final;
    }
    var matching := set name | name in dir.disk.names && name.Record? && dir.disk.names[name] == dir.disk.names[temporary];
    forall key | IsTheLinkedRecord(dir.disk, temporary, key) ensures matching == {Record(key)} && |matching| == 1 {
      MatchingIsOne(dir.disk, temporary, key, matching);
    }
    if |matching| != 1 {
      return false, final;
    }
    var name :| name in matching;
    OnlyMember(matching, name);
    OneIsLinked(dir.disk, temporary, name.key, matching);
    if |metadata.content| > LimitOf(name.key) {
      return false, final;
    }
    return true, Some(name.key);
  }

  lemma {:induction false} LinkedRecordExists(disk: Disk<RecordKey>, temporary: Name<RecordKey>)
    requires IsInterrupted(disk) && temporary in disk.names && temporary.Temporary? && Stat(disk, temporary).links == 2
    ensures HasLinkedRecord(disk, temporary)
  {
    assert IsHalfPublished(disk, temporary);
    var r :| Linked(disk, temporary, r);
    assert Stat(disk, r) == Stat(disk, temporary);
    assert r == Record(r.key);
    assert IsTheLinkedRecord(disk, temporary, r.key);
  }

  lemma {:induction false} MatchingIsOne(disk: Disk<RecordKey>, temporary: Name<RecordKey>, key: RecordKey, matching: set<Name<RecordKey>>)
    requires Valid(disk) && temporary in disk.names && IsTheLinkedRecord(disk, temporary, key)
    requires matching == set name | name in disk.names && name.Record? && disk.names[name] == disk.names[temporary]
    ensures matching == {Record(key)}
  {
    forall name | name in matching ensures name == Record(key) {
      assert name == Record(name.key);
    }
  }

  /** When one record shares the inode, it is the one, provided that it fits. */
  lemma {:induction false} OneIsLinked(disk: Disk<RecordKey>, temporary: Name<RecordKey>, key: RecordKey, matching: set<Name<RecordKey>>)
    requires Valid(disk) && temporary in disk.names && forall y :: y in matching <==> y == Record(key)
    requires matching == set name | name in disk.names && name.Record? && disk.names[name] == disk.names[temporary]
    ensures
      var file := Stat(disk, temporary);
      var fits := file.mode == ReadOnly && 0 < |file.content| <= LimitOf(key);
      (fits ==> IsTheLinkedRecord(disk, temporary, key)) && (HasLinkedRecord(disk, temporary) ==> fits)
  {
    forall other ensures Record(other) in disk.names && disk.names[Record(other)] == disk.names[temporary] <==> other == key {
      assert Record(other) in matching <==> Record(other) in disk.names && disk.names[Record(other)] == disk.names[temporary];
    }
    forall other | IsTheLinkedRecord(disk, temporary, other) ensures other == key {
      assert Record(key) in matching;
    }
  }

  lemma {:induction false} OnlyMember<T>(s: set<T>, x: T)
    requires |s| == 1 && x in s
    ensures forall y :: y in s <==> y == x
  {
    assert |s - {x}| == 0;
    forall y | y in s ensures y == x {
      assert y != x ==> y in s - {x};
    }
  }

  // ----- the two together

  /** A write that may die anywhere, the recovery of the next lock holder, and another attempt:
      recovery always accepts; `between` is what the record then holds, the old content or the whole
      first value; the retry is refused exactly when a record with other bytes is there. */
  method WriteRecoverRetry(dir: RecordDirectory, key: RecordKey, first: string, second: string, token: nat, inode: nat, token': nat, inode': nat)
    returns (outcome: CasOutcome, ok: bool, retried: CasOutcome, ghost between: Option<string>)
    requires IsStore(dir.disk) && CanStart(dir.disk, Temporary(None, token), inode)
    requires 0 < |first| <= LimitOf(key) && 0 < |second| <= LimitOf(key)
    requires inode' !in dir.disk.inodes && inode' != inode
    modifies dir
    ensures Valid(dir.disk) && ok && retried in {Stored, StateConflict, IoFailed, CasDied}
    ensures between in {ContentOf(old(dir.disk), key), Some(first)} && (outcome.Stored? ==> between == Some(first))
    ensures retried.StateConflict? <==> between !in {None, Some(second)}
    ensures between == Some(second) ==> retried.Stored?
    ensures outcome.Stored? && first == second ==> retried.Stored?
    ensures first == second && ContentOf(old(dir.disk), key).None? ==> !retried.StateConflict?
    ensures outcome.Stored? && first != second ==> retried.StateConflict?
    ensures retried.Stored? ==> ContentOf(dir.disk, key) == Some(second)
    ensures retried.StateConflict? ==> ContentOf(dir.disk, key).Some? && ContentOf(dir.disk, key) != Some(second)
    ensures forall other :: other != key ==> ContentOf(dir.disk, other) == ContentOf(old(dir.disk), other)
    ensures ContentOf(old(dir.disk), key).Some? ==> ContentOf(dir.disk, key) == ContentOf(old(dir.disk), key)
  {
    outcome := WriteCasRecord(dir, key, first, token, inode);
    ok := RecoverRecordTemporary(dir);
    between := ContentOf(dir.disk, key);
    retried := WriteCasRecord(dir, key, second, token', inode');
  }
}

/** The event directory of a session: a write that survives a crash at any step, the cleanup of
    what a crash leaves, and loading. */
module EventFiles {
  import opened LineSplitting
  import opened DirectoryModel
  import opened RecordPublishing
  import opened SessionModel
  import opened SessionLog

  type EventDirectory = Directory<nat>

  /** `_write_event_immutable`; the token and the inode are picked by chance and by the kernel.
      `stuck` says that the unlink of the `finally` clause raised in its turn. */
  method WriteEvent(dir: EventDirectory, sequence: nat, value: string, token: nat, inode: nat) returns (progress: Progress, stuck: bool)
    requires Clean(dir.disk) && CanStart(dir.disk, Temporary(Some(sequence), token), inode)
    modifies dir
    ensures Recoverable(dir.disk) && OldOrNew(old(dir.disk), dir.disk, sequence, value)
    ensures dir.disk.names.Keys <= old(dir.disk).names.Keys + {Temporary(Some(sequence), token), Record(sequence)}
    ensures progress.Continued? ==> Clean(dir.disk) && ContentOf(dir.disk, sequence) == Some(value)
    ensures progress.Raised? && !stuck ==> Clean(dir.disk)
    ensures dir.faults == old(dir.faults) ==> !stuck && (progress.Continued? <==> Record(sequence) !in old(dir.disk).names)
  {
    ghost var before := dir.disk;
    var temporary := Temporary(Some(sequence), token);
    ghost var stage, mode, content;
    stuck := false;
    progress, stage, mode, content := Publish(dir, temporary, sequence, inode, value);
    EveryStageRecovers(stage, before, temporary, sequence, inode, value, mode, content);
    if progress.Died? {
      return;
    }
    var trouble := dir.Trouble();
    if !trouble.Continued? {
      return trouble, trouble.Raised?;
    }
    if temporary in dir.disk.names {
      Discard(stage, before, temporary, sequence, inode, value, mode, content);
      dir.Unlink(temporary);
    }
  }

  /** Unlinking the temporary at any stage leaves a clean directory. */
  lemma {:induction false} Discard(stage: Stage, before: Disk<nat>, temporary: Name<nat>, key: nat, inode: nat, value: string, mode: Mode, content: string)
    requires Clean(before) && CanStart(before, temporary, inode) && mode in {ReadOnly, Writable}
    requires stage in {LinkedTwice, Done} ==> Record(key) !in before.names
    ensures
      var disk := DiskAt(stage, before, temporary, key, inode, value, mode, content);
      Valid(disk) && (temporary in disk.names ==>
        && Stat(disk, temporary).links > 0 && Clean(Unlinked(disk, temporary)) && OldOrNew(before, Unlinked(disk, temporary), key, value))
  {
    match stage
    case NotOpened =>
    case Drafted =>
      AbandonMoves(before, temporary, inode, mode, content);
      AbandonedIsClean(before, inode, mode, content);
    case LinkedTwice =>
      UnlinkMoves(before, temporary, key, inode, value);
      FinishedIsClean(before, temporary, key, inode, value);
    case Done => FinishedIsClean(before, temporary, key, inode, value);
  }

  ghost predicate AllHinted(disk: Disk<nat>) {
    forall name :: name in disk.names && name.Temporary? ==> name.hint.Some?
  }

  /** `_cleanup_stale_event_temps`: whatever a crash left is cleaned up, and no record changes. */
  method CleanupStaleTemps(dir: EventDirectory) returns (ok: bool)
    requires Valid(dir.disk) && AllHinted(dir.disk)
    modifies dir
    ensures Valid(dir.disk) && dir.disk.names.Keys <= old(dir.disk).names.Keys && dir.disk.inodes.Keys == old(dir.disk).inodes.Keys
    ensures Recoverable(old(dir.disk)) ==> ok && Clean(dir.disk) && SameContents(old(dir.disk), dir.disk)
    ensures ok ==> forall name :: name in dir.disk.names ==> !name.Temporary?
    ensures dir.faults == old(dir.faults)
  {
    var pending := dir.disk.names.Keys;
    while pending != {}
      invariant dir.disk.inodes.Keys == old(dir.disk).inodes.Keys && dir.faults == old(dir.faults)
      invariant Valid(dir.disk) && AllHinted(dir.disk) && pending <= dir.disk.names.Keys <= old(dir.disk).names.Keys
      invariant Recoverable(old(dir.disk)) ==> Recoverable(dir.disk) && SameContents(old(dir.disk), dir.disk)
      invariant forall name :: name in dir.disk.names && name.Temporary? ==> name in pending
    {
      var name :| name in pending;
      pending := pending - {name};
      if name.Temporary? {
        var safe := IsSafeTemporary(dir, name);
        if !safe {
          return false;
        }
        if Recoverable(dir.disk) {
          RemoveTemporary(dir.disk, name);
        }
        dir.Unlink(name);
      }
    }
    return true;
  }

  /** The metadata checks on one temporary. */
  method IsSafeTemporary(dir: EventDirectory, name: Name<nat>) returns (safe: bool)
    requires Valid(dir.disk) && AllHinted(dir.disk) && name in dir.disk.names && name.Temporary?
    ensures safe ==> Stat(dir.disk, name).links in {1, 2}
    ensures safe <==>
      var file, final := Stat(dir.disk, name), Record(name.hint.value);
      && file.mode in {ReadOnly, Writable} && file.links in {1, 2}
      && (file.links == 2 ==>
           && final in dir.disk.names && dir.disk.names[final] == dir.disk.names[name]
           && file.mode == ReadOnly)
    ensures Recoverable(dir.disk) ==> safe
  {
    var metadata := Stat(dir.disk, name);
    if metadata.mode !in {ReadOnly, Writable} || metadata.links !in {1, 2} {
      return false;
    }
    if metadata.links == 2 {
      var final := Record(name.hint.value);
      ghost var linked := Recoverable(dir.disk) ==> exists r :: Linked(dir.disk, name, r);
      if final !in dir.disk.names {
        return false;
      }
      var other := Stat(dir.disk, final);
      return metadata.mode == ReadOnly && other.mode == ReadOnly && other.links == 2 && dir.disk.names[name] == dir.disk.names[final];
    }
    return true;
  }

  // ----- reading the log

  /** The directory holds exactly the events of `log`, one settled file each. */
  ghost predicate Holds(disk: Disk<nat>, log: seq<Event>, decode: string -> Option<Event>) {
    && Clean(disk) && LockFile !in disk.names
    && (forall k: nat :: Record(k) in disk.names <==> k < |log|)
    && forall k :: 0 <= k < |log| ==> IsFileOf(disk, k, log[k], decode)
  }

  predicate IsFileOf(disk: Disk<nat>, k: nat, event: Event, decode: string -> Option<Event>)
    requires Valid(disk)
  {
    && Record(k) in disk.names && Stat(disk, Record(k)).mode == ReadOnly && Stat(disk, Record(k)).links == 1
    && decode(Stat(disk, Record(k)).content) == Some(event)
  }

  /** The events of the directory in name order; `None` when a name or a file is not as it should be. */
  method ReadLog(dir: EventDirectory, decode: string -> Option<Event>) returns (log: Option<seq<Event>>)
    requires Clean(dir.disk)
    ensures log.Some? ==> Holds(dir.disk, log.value, decode)
    ensures forall held :: Holds(dir.disk, held, decode) ==> log == Some(held)
  {
    var names := dir.disk.names.Keys;
    var events: seq<Event> := [];
    while names != {}
      invariant forall name :: name in names <==> name in dir.disk.names && !IsRead(name, |events|)
      invariant forall k :: 0 <= k < |events| ==> IsFileOf(dir.disk, k, events[k], decode)
      invariant forall held :: Holds(dir.disk, held, decode) ==> events <= held
      decreases |names|
    {
      var name: Name<nat> := Record(|events|);
      if name !in names {
        ghost var unread :| unread in names;
        NothingHeld(dir.disk, events, unread, decode);
        return None;
      }
      var file := Stat(dir.disk, name);
      var event := decode(file.content);
      if file.mode != ReadOnly || file.links != 1 || event.None? {
        UnreadableFile(dir.disk, events, decode);
        return None;
      }
      forall held | Holds(dir.disk, held, decode) ensures events + [event.value] <= held {
        assert IsFileOf(dir.disk, |events|, held[|events|], decode);
      }
      names := names - {name};
      events := events + [event.value];
    }
    NothingLeft(dir.disk, events, decode);
    return Some(events);
  }

  predicate IsRead(name: Name<nat>, count: nat) { name.Record? && name.key < count }

  lemma {:induction false} NothingHeld(disk: Disk<nat>, events: seq<Event>, unread: Name<nat>, decode: string -> Option<Event>)
    requires unread in disk.names && !IsRead(unread, |events|) && Record(|events|) !in disk.names
    requires forall held :: Holds(disk, held, decode) ==> events <= held
    ensures forall held :: !Holds(disk, held, decode)
  {
    match unread
    case Record(key) => assert Record(key) in disk.names;
    case _ =>
  }

  lemma {:induction false} UnreadableFile(disk: Disk<nat>, events: seq<Event>, decode: string -> Option<Event>)
    requires Valid(disk) && Record(|events|) in disk.names && forall event :: !IsFileOf(disk, |events|, event, decode)
    requires forall held :: Holds(disk, held, decode) ==> events <= held
    ensures forall held :: !Holds(disk, held, decode)
  {
    forall held ensures !Holds(disk, held, decode) {
      assert |held| > |events| ==> !IsFileOf(disk, |events|, held[|events|], decode);
    }
  }

  lemma {:induction false} NothingLeft(disk: Disk<nat>, events: seq<Event>, decode: string -> Option<Event>)
    requires Clean(disk) && forall name :: name in disk.names ==> IsRead(name, |events|)
    requires forall k :: 0 <= k < |events| ==> IsFileOf(disk, k, events[k], decode)
    ensures Holds(disk, events, decode)
    ensures forall held :: Holds(disk, held, decode) && events <= held ==> held == events
  {
    assert !IsRead(LockFile, |events|);
    forall k: nat ensures Record(k) in disk.names <==> k < |events| {
      assert IsRead(Record(k), |events|) <==> k < |events|;
      assert k < |events| ==> IsFileOf(disk, k, events[k], decode);
    }
    forall held | Holds(disk, held, decode) && events <= held ensures held == events {
      assert |held| > |events| ==> Record(|events|) in disk.names;
    }
  }

  /** Reading back what was written. */
  ghost predicate Inverse(encode: Event -> string, decode: string -> Option<Event>) {
    forall event: Event :: decode(encode(event)) == Some(event)
  }

  lemma {:induction false} StillHolds(before: Disk<nat>, after: Disk<nat>, log: seq<Event>, event: Event, encode: Event -> string, decode: string -> Option<Event>)
    requires Holds(before, log, decode) && Clean(after) && LockFile !in after.names && Inverse(encode, decode)
    requires OldOrNew(before, after, |log|, encode(event))
    ensures ContentOf(after, |log|).None? ==> Holds(after, log, decode)
    ensures ContentOf(after, |log|).Some? ==> Holds(after, log + [event], decode)
  {
    forall k: nat ensures Record(k) in after.names <==> ContentOf(after, k).Some? {
    }
    forall k: nat | k != |log| ensures ContentOf(after, k) == ContentOf(before, k) {
    }
    assert ContentOf(before, |log|).None?;
    forall k: nat | k < |log| ensures IsFileOf(after, k, log[k], decode) {
      assert IsFileOf(before, k, log[k], decode) && IsSettled(after, Record(k));
    }
    if ContentOf(after, |log|).Some? {
      assert IsSettled(after, Record(|log|));
      assert IsFileOf(after, |log|, event, decode);
    }
  }

  /** A write that may die anywhere, then a cleanup: the log held is the old one or the longer one. */
  method WriteAndClean(dir: EventDirectory, ghost log: seq<Event>, event: Event, encode: Event -> string, ghost decode: string -> Option<Event>,
      token: nat, inode: nat) returns (progress: Progress)
    requires Inverse(encode, decode) && Holds(dir.disk, log, decode)
    requires event.sequence == |log| && inode !in dir.disk.inodes
    modifies dir
    ensures Clean(dir.disk) && (Holds(dir.disk, log, decode) || Holds(dir.disk, log + [event], decode))
    ensures progress.Continued? ==> Holds(dir.disk, log + [event], decode)
    ensures dir.faults == old(dir.faults) ==> progress.Continued?
  {
    ghost var before := dir.disk;
    var stuck;
    progress, stuck := WriteEvent(dir, event.sequence, encode(event), token, inode);
    var ok := CleanupStaleTemps(dir);
    assert ContentOf(dir.disk, |log|) == Some(encode(event)) || ContentOf(dir.disk, |log|).None?;
    StillHolds(before, dir.disk, log, event, encode, decode);
  }

  /** An event that append has accepted is written, the process dies at any step, and the next
      load cleans up: it never fails, and returns the state before the event or the state after
      it; if the write had finished, the state after it. */
  method AppendAcrossCrash(dir: EventDirectory, ghost log: seq<Event>, event: Event, encode: Event -> string, decode: string -> Option<Event>,
      session: Session, token: nat, inode: nat) returns (progress: Progress, loaded: Option<Loaded>)
    requires Inverse(encode, decode) && Holds(dir.disk, log, decode)
    requires IsLoadable(log, session) && IsLoadable(log + [event], session)
    requires event.sequence == |log| && inode !in dir.disk.inodes
    modifies dir
    ensures loaded.Some?
    ensures (Holds(dir.disk, log, decode) && loaded == Replay(log, session) && !progress.Continued?)
      || (Holds(dir.disk, log + [event], decode) && loaded == Replay(log + [event], session))
    ensures dir.faults == old(dir.faults) ==> progress.Continued?
  {
    progress := WriteAndClean(dir, log, event, encode, decode, token, inode);
    var events := ReadLog(dir, decode);
    loaded := LoadEventChain(events.value, session);
  }

  /** `load`, from the files: what a crash left is cleaned up, then the events are read and replayed. */
  method LoadFiles(dir: EventDirectory, decode: string -> Option<Event>, session: Session) returns (loaded: Option<Loaded>)
    requires Recoverable(dir.disk) && AllHinted(dir.disk)
    modifies dir
    ensures Clean(dir.disk) && SameContents(old(dir.disk), dir.disk)
    ensures dir.disk.names.Keys <= old(dir.disk).names.Keys && dir.disk.inodes.Keys == old(dir.disk).inodes.Keys
    ensures forall log :: Holds(dir.disk, log, decode) ==> loaded == Replay(log, session)
    ensures dir.faults == old(dir.faults)
  {
    var ok := CleanupStaleTemps(dir);
    var events := ReadLog(dir, decode);
    if events.None? {
      return None;
    }
    loaded := LoadEventChain(events.value, session);
  }

  /** The event that a request asks for after a loadable log. */
  ghost function AskedFor(log: seq<Event>, request: Request, stored: Option<string>, session: Session): Event
    requires IsLoadable(log, session)
  {
    Proposed(Replay(log, session).value, request, stored)
  }

  lemma {:induction false} HoldsStill(before: Disk<nat>, after: Disk<nat>, log: seq<Event>, decode: string -> Option<Event>)
    requires Holds(before, log, decode) && Clean(after) && SameContents(before, after) && after.names.Keys <= before.names.Keys
    ensures Holds(after, log, decode)
  {
    forall k: nat ensures Record(k) in after.names <==> k < |log| {
      assert ContentOf(after, k) == ContentOf(before, k);
    }
    forall k | 0 <= k < |log| ensures IsFileOf(after, k, log[k], decode) {
      assert IsFileOf(before, k, log[k], decode) && IsSettled(after, Record(k)) && ContentOf(after, k) == ContentOf(before, k);
    }
  }

  /** One whole append: the log is loaded from the files, the request is judged, the event is written,
      the process may die at any step, and the next load follows. A refused request changes
      nothing. An accepted one leaves, and loads as, the log before or the log with exactly the
      event asked for; the latter whenever the write finished. */
  method AppendThroughCrash(dir: EventDirectory, ghost log: seq<Event>, request: Request, stored: Option<string>,
      encode: Event -> string, decode: string -> Option<Event>, session: Session, token: nat, inode: nat)
    returns (judgement: Judgement, progress: Progress, reloaded: Option<Loaded>)
    requires Inverse(encode, decode) && Holds(dir.disk, log, decode) && IsLoadable(log, session) && ShapeOk(request.snapshot)
    requires inode !in dir.disk.inodes
    modifies dir
    ensures judgement.Accepted? <==>
      && RequestOk(request, session, Replay(log, session).value.lease)
      && IsLoadable(log + [AskedFor(log, request, stored, session)], session)
    ensures judgement.Refused? ==> Holds(dir.disk, log, decode) && reloaded == Replay(log, session)
    ensures judgement.Accepted? ==>
      || (Holds(dir.disk, log, decode) && reloaded == Replay(log, session) && !progress.Continued?)
      || (Holds(dir.disk, log + [AskedFor(log, request, stored, session)], decode)
          && reloaded == Replay(log + [AskedFor(log, request, stored, session)], session))
    ensures dir.faults == old(dir.faults) ==> progress.Continued?
  {
    ghost var before := dir.disk;
    CleanIsRecoverable(before);
    var current := LoadFiles(dir, decode, session);
    HoldsStill(before, dir.disk, log, decode);
    ReplayMore(log, AskedFor(log, request, stored, session), session);
    judgement := Judge(current.value, request, stored, session);
    progress, reloaded := Continued, current;
    if judgement.Accepted? {
      SequenceIsLength(log, session);
      progress, reloaded := AppendAcrossCrash(dir, log, judgement.event, encode, decode, session, token, inode);
    }
  }

  lemma {:induction false} SequenceIsLength(log: seq<Event>, session: Session)
    requires IsLoadable(log, session)
    ensures Replay(log, session).value.sequence == |log| - 1
  {
    if |log| > 1 {
      SequenceIsLength(Front(log), session);
    }
  }
}

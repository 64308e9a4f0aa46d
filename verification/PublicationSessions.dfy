/** The GitHub publication protocol as it runs: the records are files, every write may be interrupted,
    and recovery runs when the lock is taken and at no other time. */
module PublicationSessions {
  import opened LineSplitting
  import opened DirectoryModel
  import opened RecordPublishing
  import opened PublicationRecords
  import opened GitHubPublication

  /** Canonical encodings of the records, and their readers. */
  datatype Codec = Codec(
    proposal: Proposal -> string, asProposal: string -> Option<Proposal>,
    binding: Binding -> string, asBinding: string -> Option<Binding>,
    approval: Approval -> string, asApproval: string -> Option<Approval>,
    publication: Publication -> string, asPublication: string -> Option<Publication>)

  /** Reading undoes writing, and nothing but what is written can be read. */
  ghost predicate IsCanonical(codec: Codec) {
    && (forall x :: codec.asProposal(codec.proposal(x)) == Some(x))
    && (forall text :: codec.asProposal(text).Some? ==> codec.proposal(codec.asProposal(text).value) == text)
    && (forall x :: codec.asBinding(codec.binding(x)) == Some(x))
    && (forall text :: codec.asBinding(text).Some? ==> codec.binding(codec.asBinding(text).value) == text)
    && (forall x :: codec.asApproval(codec.approval(x)) == Some(x))
    && (forall text :: codec.asApproval(text).Some? ==> codec.approval(codec.asApproval(text).value) == text)
    && (forall x :: codec.asPublication(codec.publication(x)) == Some(x))
    && (forall text :: codec.asPublication(text).Some? ==> codec.publication(codec.asPublication(text).value) == text)
  }

  type Store = Disk<RecordKey>

  // ----- the records on a disk

  function Decoded<T>(content: Option<string>, decode: string -> Option<T>): Option<T> {
    if content.None? then None else decode(content.value)
  }

  function RecordsOn(disk: Store, codec: Codec): Records
    requires Valid(disk)
  {
    Records(Decoded(ContentOf(disk, ProposalRecord), codec.asProposal), Decoded(ContentOf(disk, BindingRecord), codec.asBinding),
            Decoded(ContentOf(disk, ApprovalRecord), codec.asApproval), Decoded(ContentOf(disk, BranchRecord), codec.asPublication),
            Decoded(ContentOf(disk, ResultRecord), codec.asPublication))
  }

  predicate Decodes(key: RecordKey, text: string, codec: Codec) {
    match key
    case ProposalRecord => codec.asProposal(text).Some?
    case BindingRecord => codec.asBinding(text).Some?
    case ApprovalRecord => codec.asApproval(text).Some?
    case _ => codec.asPublication(text).Some?
  }

  /** Every record that is there can be decoded. */
  predicate IsLegible(disk: Store, codec: Codec)
    requires Valid(disk)
  {
    forall key :: ContentOf(disk, key).Some? ==> Decodes(key, ContentOf(disk, key).value, codec)
  }

  /** The records with one of them replaced by what the text says. */
  function With(records: Records, key: RecordKey, text: string, codec: Codec): Records {
    match key
    case ProposalRecord => records.(proposal := codec.asProposal(text))
    case BindingRecord => records.(binding := codec.asBinding(text))
    case ApprovalRecord => records.(approval := codec.asApproval(text))
    case BranchRecord => records.(branch := codec.asPublication(text))
    case ResultRecord => records.(result := codec.asPublication(text))
  }

  /** A write, interrupted or not, replaces one record or none. */
  lemma {:induction false} WriteReplaces(before: Store, after: Store, key: RecordKey, text: string, codec: Codec)
    requires Valid(before) && Valid(after) && OldOrNew(before, after, key, text) && IsLegible(before, codec) && Decodes(key, text, codec)
    ensures IsLegible(after, codec)
    ensures RecordsOn(after, codec) ==
      if ContentOf(after, key) == ContentOf(before, key) then RecordsOn(before, codec) else With(RecordsOn(before, codec), key, text, codec)
    ensures ContentOf(after, key) != ContentOf(before, key) ==> ContentOf(before, key).None? && ContentOf(after, key) == Some(text)
  {
    forall other | other != key ensures ContentOf(after, other) == ContentOf(before, other) {
    }
  }

  /** No content that is there changes. */
  ghost predicate IsWriteOnce(before: Store, after: Store)
    requires Valid(before) && Valid(after)
  {
    forall key :: Keeps(ContentOf(before, key), ContentOf(after, key))
  }

  // ----- the status

  predicate HasTemporary(disk: Store) { exists name :: name in disk.names && name.Temporary? }

  predicate AllReadable(disk: Store)
    requires Valid(disk)
  {
    forall key :: !ReadRecord(disk, key).Unsafe?
  }

  /** `_load_status`: any name that is not a record's, any record that cannot be read or decoded, and
      any records that do not fit together are corruption. */
  function LoadOn(disk: Store, place: Place, codec: Codec): Option<Status>
    requires Valid(disk)
  {
    if HasTemporary(disk) || !AllReadable(disk) || !IsLegible(disk, codec) then None else Load(RecordsOn(disk, codec), place)
  }

  /** What every call keeps, whatever happens to it. */
  ghost predicate IsSound(disk: Store, place: Place, codec: Codec) {
    IsInterrupted(disk) && IsLegible(disk, codec) && Consistent(RecordsOn(disk, codec), place)
  }

  lemma {:induction false} WithoutTemporaryIsStore(disk: Store)
    requires IsInterrupted(disk) && !HasTemporary(disk)
    ensures IsStore(disk)
  {
    SettledWithoutTemporary(disk);
  }

  lemma {:induction false} SettledWithoutTemporary(disk: Store)
    requires IsInterrupted(disk) && !HasTemporary(disk)
    ensures IsStore(disk) && AllReadable(disk)
    ensures forall key :: ReadRecord(disk, key) == if ContentOf(disk, key).None? then Absent else Found(ContentOf(disk, key).value)
  {
    forall name | name in disk.names ensures !name.Temporary? {
    }
    AllSettled(disk);
    forall key ensures ReadRecord(disk, key) == if ContentOf(disk, key).None? then Absent else Found(ContentOf(disk, key).value) {
      StoreIsReadable(disk, key);
    }
  }

  /** Once the proposal exists the status reads as corrupt exactly while a temporary is left over. */
  lemma {:induction false} CorruptExactlyWhileStuck(disk: Store, place: Place, codec: Codec)
    requires IsSound(disk, place, codec) && RecordsOn(disk, codec).proposal.Some?
    ensures LoadOn(disk, place, codec).None? <==> HasTemporary(disk)
  {
    if !HasTemporary(disk) {
      SettledWithoutTemporary(disk);
    }
  }

  /** How it comes about: an approval that fits is linked under its name, the unlink of its temporary
      fails, and the next call of the session reads a sound store with every record in place as
      corrupt. */
  lemma {:induction false} FailedUnlinkReadsCorrupt(before: Store, approval: Approval, token: nat, inode: nat, place: Place, codec: Codec)
    requires IsCanonical(codec) && IsStore(before) && IsSound(before, place, codec)
    requires RecordsOn(before, codec).proposal.Some? && ContentOf(before, ApprovalRecord).None?
    requires ApprovalMatches(RecordsOn(before, codec).proposal.value, approval)
    requires 0 < |codec.approval(approval)| <= LimitOf(ApprovalRecord) && CanStart(before, Temporary(None, token), inode)
    ensures
      var stuck := Published(before, Temporary(None, token), ApprovalRecord, inode, codec.approval(approval));
      && IsSound(stuck, place, codec) && RecordsOn(stuck, codec) == RecordsOn(before, codec).(approval := Some(approval))
      && HasTemporary(stuck) && LoadOn(stuck, place, codec).None?
  {
    var temporary, text := Temporary(None, token), codec.approval(approval);
    var stuck := Published(before, temporary, ApprovalRecord, inode, text);
    StageIsInterrupted(LinkedTwice, before, temporary, ApprovalRecord, inode, text, ReadOnly, text);
    WriteReplaces(before, stuck, ApprovalRecord, text, codec);
    ApprovalKeeps(RecordsOn(before, codec), approval, place);
    assert temporary in stuck.names;
  }

  lemma {:induction false} LoadedIsSound(disk: Store, place: Place, codec: Codec)
    requires IsInterrupted(disk) && LoadOn(disk, place, codec).Some?
    ensures IsSound(disk, place, codec) && !HasTemporary(disk) && IsStore(disk)
  {
    SettledWithoutTemporary(disk);
  }

  /** A store without temporaries whose records are consistent loads. */
  lemma {:induction false} StoreLoads(disk: Store, place: Place, codec: Codec)
    requires IsStore(disk) && IsLegible(disk, codec) && Load(RecordsOn(disk, codec), place).Some?
    ensures LoadOn(disk, place, codec) == Load(RecordsOn(disk, codec), place)
  {
    CleanIsRecoverable(disk);
    SettledWithoutTemporary(disk);
  }

  datatype Outcome = Loaded(status: Status) | BadInput | Conflict | Corrupt | Failed | Died

  function OutcomeOf(cas: CasOutcome): Outcome {
    match cas
    case InvalidIdentity => BadInput
    case StateConflict => Conflict
    case CorruptState => Corrupt
    case IoFailed => Failed
    case _ => Outcome.Died
  }

  datatype Reading<T> = Missing | Bad | Good(value: T)

  /** The text can be stored under the key. */
  predicate Fits(key: RecordKey, text: string) { 0 < |text| <= LimitOf(key) }

  /** A write of one decodable record into a store: what it may change, and how it may end. */
  ghost predicate IsWrite(before: Store, after: Store, key: RecordKey, text: string, cas: CasOutcome, codec: Codec)
    requires Valid(before) && Valid(after)
  {
    && IsInterrupted(after) && OldOrNew(before, after, key, text) && IsWriteOnce(before, after)
    && (cas.Stored? ==> IsStore(after) && ContentOf(after, key) == Some(text))
    && (cas in {InvalidIdentity, StateConflict} || ContentOf(before, key).Some? ==> after == before)
    && (ContentOf(before, key) == Some(text) ==> cas.Stored?)
    && (cas.InvalidIdentity? <==> !Fits(key, text))
    && (cas.StateConflict? <==> Fits(key, text) && ContentOf(before, key) !in {None, Some(text)})
    && !cas.CorruptState?
    && (HasTemporary(after) ==> cas in {IoFailed, CasDied})
  }

  lemma {:induction false} StoreHasNoTemporary(disk: Store)
    requires IsStore(disk)
    ensures !HasTemporary(disk) && IsInterrupted(disk)
  {
    CleanIsRecoverable(disk);
  }

  /** `LockedGitHubPublication`, from the moment the lock is held and recovery has run. */
  class LockedPublication {
    const place: Place
    const codec: Codec
    const dir: RecordDirectory

    constructor (place: Place, codec: Codec, dir: RecordDirectory)
      ensures this.place == place && this.codec == codec && this.dir == dir
    {
      this.place, this.codec, this.dir := place, codec, dir;
    }

    method ReadAs<T>(key: RecordKey, decode: string -> Option<T>) returns (reading: Reading<T>)
      requires Valid(dir.disk)
      ensures reading.Bad? <==>
        || ReadRecord(dir.disk, key).Unsafe?
        || (ReadRecord(dir.disk, key).Found? && decode(ContentOf(dir.disk, key).value).None?)
      ensures !reading.Bad? ==>
        Decoded(ContentOf(dir.disk, key), decode) == if reading.Good? then Some(reading.value) else None
      ensures reading.Missing? <==> ReadRecord(dir.disk, key).Absent?
    {
      match ReadRecord(dir.disk, key)
      case Absent => return Missing;
      case Unsafe => return Bad;
      case Found(content) =>
        var decoded := decode(content);
        return if decoded.Some? then Good(decoded.value) else Bad;
    }

    /** `_load_status` */
    method LoadStatus() returns (outcome: Outcome)
      requires Valid(dir.disk)
      ensures outcome ==
        if LoadOn(dir.disk, place, codec).Some? then Loaded(LoadOn(dir.disk, place, codec).value) else Corrupt
    {
      if HasTemporary(dir.disk) {
        return Corrupt;
      }
      var proposal := ReadAs(ProposalRecord, codec.asProposal);
      var binding := ReadAs(BindingRecord, codec.asBinding);
      var approval := ReadAs(ApprovalRecord, codec.asApproval);
      var branch := ReadAs(BranchRecord, codec.asPublication);
      var result := ReadAs(ResultRecord, codec.asPublication);
      if proposal.Bad? || binding.Bad? || approval.Bad? || branch.Bad? || result.Bad? {
        return Corrupt;
      }
      forall key ensures !ReadRecord(dir.disk, key).Unsafe? && (ContentOf(dir.disk, key).Some? ==> Decodes(key, ContentOf(dir.disk, key).value, codec)) {
        match key
        case ProposalRecord =>
        case BindingRecord =>
        case ApprovalRecord =>
        case BranchRecord =>
        case ResultRecord =>
      }
      var status := Load(RecordsOn(dir.disk, codec), place);
      return if status.Some? then Loaded(status.value) else Corrupt;
    }

    /** One compare-and-set write of a locked store. */
    method Save(key: RecordKey, text: string, token: nat, inode: nat) returns (cas: CasOutcome)
      requires IsStore(dir.disk) && inode !in dir.disk.inodes
      modifies dir
      ensures Valid(dir.disk) && IsWrite(old(dir.disk), dir.disk, key, text, cas, codec)
      ensures dir.faults >= old(dir.faults) && (cas in {IoFailed, CasDied} ==> dir.faults > old(dir.faults))
      ensures dir.disk.inodes.Keys <= old(dir.disk).inodes.Keys + {inode}
    {
      ghost var before := dir.disk;
      SizeOfContent(before, key);
      cas := WriteCasRecord(dir, key, text, token, inode);
      if cas.Stored? {
        StoreHasNoTemporary(dir.disk);
      } else if dir.disk == before {
        StoreHasNoTemporary(dir.disk);
      }
    }

    /** A record that fits the status is written, and the status read again. */
    method SaveJudged(key: RecordKey, text: string, token: nat, inode: nat) returns (outcome: Outcome)
      requires IsInterrupted(dir.disk) && inode !in dir.disk.inodes
      requires LoadOn(dir.disk, place, codec).Some? && Decodes(key, text, codec)
      requires ContentOf(dir.disk, key).None? ==> Load(With(RecordsOn(dir.disk, codec), key, text, codec), place).Some?
      modifies dir
      ensures Kept(old(dir.disk), dir.disk, {key}, outcome, place, codec)
      ensures !outcome.Corrupt? && (outcome.BadInput? ==> dir.disk == old(dir.disk))
      ensures outcome.BadInput? <==> !Fits(key, text)
      ensures outcome.Conflict? <==> Fits(key, text) && ContentOf(old(dir.disk), key) !in {None, Some(text)}
      ensures dir.faults >= old(dir.faults) && (outcome in {Failed, Outcome.Died} ==> dir.faults > old(dir.faults))
      ensures outcome.Loaded? ==> ContentOf(dir.disk, key) == Some(text) && LoadOn(dir.disk, place, codec) == Some(outcome.status)
      ensures ContentOf(old(dir.disk), key) == Some(text) ==>
        outcome == Loaded(LoadOn(old(dir.disk), place, codec).value) && dir.disk == old(dir.disk)
      ensures dir.disk.inodes.Keys <= old(dir.disk).inodes.Keys + {inode}
    {
      ghost var before := dir.disk;
      LoadedIsSound(before, place, codec);
      var cas := Save(key, text, token, inode);
      WriteReplaces(before, dir.disk, key, text, codec);
      if !cas.Stored? {
        return OutcomeOf(cas);
      }
      StoreLoads(dir.disk, place, codec);
      outcome := LoadStatus();
    }

    /** `record_approval` */
    method RecordApproval(approval: Approval, token: nat, inode: nat) returns (outcome: Outcome)
      requires IsCanonical(codec) && IsInterrupted(dir.disk) && inode !in dir.disk.inodes
      modifies dir
      ensures Kept(old(dir.disk), dir.disk, {ApprovalRecord}, outcome, place, codec)
      ensures outcome.Corrupt? <==> LoadOn(old(dir.disk), place, codec).None?
      ensures outcome.Corrupt? || HasTemporary(old(dir.disk)) ==> outcome.Corrupt? && dir.disk == old(dir.disk)
      ensures outcome.Loaded? ==> outcome.status.approval == Some(approval) && LoadOn(dir.disk, place, codec) == Some(outcome.status)
      ensures outcome.BadInput? ==> dir.disk == old(dir.disk)
      ensures LoadOn(old(dir.disk), place, codec).Some? && RecordsOn(old(dir.disk), codec).approval == Some(approval) ==>
        outcome == Loaded(LoadOn(old(dir.disk), place, codec).value) && dir.disk == old(dir.disk)
      ensures LoadOn(old(dir.disk), place, codec).Some? ==>
        var records := RecordsOn(old(dir.disk), codec);
        && (outcome.BadInput? <==> !ApprovalIsGood(records, approval, codec))
        && (outcome.Conflict? <==> ApprovalIsGood(records, approval, codec) && records.approval !in {None, Some(approval)})
      ensures dir.faults >= old(dir.faults) && (outcome in {Failed, Outcome.Died} ==> dir.faults > old(dir.faults))
      ensures dir.disk.inodes.Keys <= old(dir.disk).inodes.Keys + {inode}
    {
      outcome := LoadStatus();
      if !outcome.Loaded? {
        return;
      }
      ghost var before := dir.disk;
      if !ApprovalMatches(outcome.status.proposal, approval) {
        return BadInput;
      }
      ApprovalContent(before, approval, place, codec);
      if ContentOf(before, ApprovalRecord).None? {
        ApprovalKeeps(RecordsOn(before, codec), approval, place);
      }
      outcome := SaveJudged(ApprovalRecord, codec.approval(approval), token, inode);
    }

    /** `record_partial_result` */
    method RecordPartialResult(result: Publication, token: nat, inode: nat) returns (outcome: Outcome)
      requires IsCanonical(codec) && IsInterrupted(dir.disk) && inode !in dir.disk.inodes && PublicationOk(result)
      modifies dir
      ensures Kept(old(dir.disk), dir.disk, {BranchRecord}, outcome, place, codec)
      ensures outcome.Corrupt? <==> LoadOn(old(dir.disk), place, codec).None?
      ensures outcome.Corrupt? || HasTemporary(old(dir.disk)) ==> outcome.Corrupt? && dir.disk == old(dir.disk)
      ensures outcome.Loaded? ==> outcome.status.partial == Some(result) && LoadOn(dir.disk, place, codec) == Some(outcome.status)
      ensures outcome.BadInput? ==> dir.disk == old(dir.disk)
      ensures ContentOf(dir.disk, BranchRecord) != ContentOf(old(dir.disk), BranchRecord) ==>
        var records := RecordsOn(old(dir.disk), codec);
        records.approval == Some(result.approval) && records.result.None?
      ensures LoadOn(old(dir.disk), place, codec).Some? && RecordsOn(old(dir.disk), codec).branch == Some(result) ==>
        outcome == Loaded(LoadOn(old(dir.disk), place, codec).value) && dir.disk == old(dir.disk)
      ensures LoadOn(old(dir.disk), place, codec).Some? ==>
        var records := RecordsOn(old(dir.disk), codec);
        && (outcome.BadInput? <==>
             (BranchIsGood(records, result, place) ==>
               !BranchClashes(records, result) && records.branch.None? && !Fits(BranchRecord, codec.publication(result))))
        && (outcome.Conflict? <==> BranchIsGood(records, result, place) && BranchClashes(records, result))
      ensures dir.faults >= old(dir.faults) && (outcome in {Failed, Outcome.Died} ==> dir.faults > old(dir.faults))
      ensures dir.disk.inodes.Keys <= old(dir.disk).inodes.Keys + {inode}
    {
      outcome := LoadStatus();
      if !outcome.Loaded? {
        return;
      }
      ghost var before := dir.disk;
      var verdict := JudgePartial(outcome.status, result, place);
      if verdict.Some? {
        return verdict.value;
      }
      if ContentOf(before, BranchRecord).None? {
        BranchKeeps(RecordsOn(before, codec), result, place);
      }
      outcome := SaveJudged(BranchRecord, codec.publication(result), token, inode);
    }

    /** `record_result` */
    method RecordResult(result: Publication, token: nat, inode: nat) returns (outcome: Outcome)
      requires IsCanonical(codec) && IsInterrupted(dir.disk) && inode !in dir.disk.inodes && PublicationOk(result)
      modifies dir
      ensures Kept(old(dir.disk), dir.disk, {ResultRecord}, outcome, place, codec)
      ensures outcome.Corrupt? <==> LoadOn(old(dir.disk), place, codec).None?
      ensures outcome.Corrupt? || HasTemporary(old(dir.disk)) ==> outcome.Corrupt? && dir.disk == old(dir.disk)
      ensures outcome.Loaded? ==> outcome.status.result == Some(result) && LoadOn(dir.disk, place, codec) == Some(outcome.status)
      ensures outcome.BadInput? ==> dir.disk == old(dir.disk)
      ensures ContentOf(dir.disk, ResultRecord) != ContentOf(old(dir.disk), ResultRecord) ==>
        var records := RecordsOn(old(dir.disk), codec);
        && records.approval == Some(result.approval)
        && (records.branch.Some? ==> SameRecovery(records.branch.value, result))
      ensures LoadOn(old(dir.disk), place, codec).Some? && RecordsOn(old(dir.disk), codec).result == Some(result) ==>
        outcome == Loaded(LoadOn(old(dir.disk), place, codec).value) && dir.disk == old(dir.disk)
      ensures LoadOn(old(dir.disk), place, codec).Some? ==>
        var records := RecordsOn(old(dir.disk), codec);
        && (outcome.BadInput? <==>
             (ResultIsGood(records, result, place) ==>
               !ResultClashes(records, result) && records.result.None? && !Fits(ResultRecord, codec.publication(result))))
        && (outcome.Conflict? <==> ResultIsGood(records, result, place) && ResultClashes(records, result))
      ensures dir.faults >= old(dir.faults) && (outcome in {Failed, Outcome.Died} ==> dir.faults > old(dir.faults))
      ensures dir.disk.inodes.Keys <= old(dir.disk).inodes.Keys + {inode}
    {
      outcome := LoadStatus();
      if !outcome.Loaded? {
        return;
      }
      ghost var before := dir.disk;
      var verdict := JudgeResult(outcome.status, result, place);
      if verdict.Some? {
        return verdict.value;
      }
      if ContentOf(before, ResultRecord).None? {
        ResultKeeps(RecordsOn(before, codec), result, place);
      }
      outcome := SaveJudged(ResultRecord, codec.publication(result), token, inode);
    }

    /** `_require_cas_compatible` */
    method RequireCompatible(key: RecordKey, text: string) returns (answer: Reading<bool>)
      requires Valid(dir.disk)
      ensures answer.Bad? <==> ReadRecord(dir.disk, key).Unsafe?
      ensures answer == Good(true) <==> ReadRecord(dir.disk, key) in {Absent, Found(text)}
    {
      match ReadRecord(dir.disk, key)
      case Absent => return Good(true);
      case Unsafe => return Bad;
      case Found(existing) => return Good(existing == text);
    }

    /** Everything `_record_proposal` checks before it writes. */
    method CheckProposal(proposal: Proposal, sessionId: Option<string>) returns (refusal: Option<Outcome>)
      requires IsCanonical(codec) && IsInterrupted(dir.disk)
      ensures refusal in {None, Some(BadInput), Some(Corrupt), Some(Conflict)}
      ensures HasTemporary(dir.disk) ==> refusal in {Some(Corrupt), Some(BadInput)}
      ensures refusal == Some(Corrupt) && IsSound(dir.disk, place, codec) ==> HasTemporary(dir.disk)
      ensures IsSaidAlready(dir.disk, proposal, sessionId, place, codec) ==> refusal.None?
      ensures refusal.None? ==> CanWrite(dir.disk, proposal, sessionId, place, codec)
      ensures refusal == Some(BadInput) <==> !ProposalIsGood(proposal, sessionId, place)
      ensures refusal.None? ==> !IsOrphaned(dir.disk)
      ensures IsSound(dir.disk, place, codec) && !HasTemporary(dir.disk) && ProposalIsGood(proposal, sessionId, place) ==>
        refusal == if ProposalClashes(RecordsOn(dir.disk, codec), proposal, sessionId) then Some(Conflict) else None
    {
      if IsSaidAlready(dir.disk, proposal, sessionId, place, codec) {
        SaidAlready(dir.disk, proposal, sessionId, place, codec);
      }
      if proposal.sha256 != place.sha256 || proposal.repository != place.repository || (proposal.kind == Repair) != sessionId.Some? {
        return Some(BadInput);
      }
      if HasTemporary(dir.disk) {
        return Some(Corrupt);
      }
      SettledWithoutTemporary(dir.disk);
      if IsSound(dir.disk, place, codec) && sessionId.Some? {
        ProposalContent(dir.disk, proposal, Binding(proposal.sha256, sessionId.value), codec);
      } else if IsSound(dir.disk, place, codec) {
        ProposalContent(dir.disk, proposal, Binding(proposal.sha256, ""), codec);
      }
      var names := dir.disk.names;
      if Record(ProposalRecord) !in names && (Record(ApprovalRecord) in names || Record(BranchRecord) in names || Record(ResultRecord) in names) {
        return Some(Corrupt);
      }
      var compatible := RequireCompatible(ProposalRecord, codec.proposal(proposal));
      if compatible != Good(true) {
        return Some(if compatible.Bad? then Corrupt else Conflict);
      }
      if proposal.kind == Repair {
        if Record(ProposalRecord) in names && Record(BindingRecord) !in names {
          return Some(Corrupt);
        }
        compatible := RequireCompatible(BindingRecord, codec.binding(Binding(proposal.sha256, sessionId.value)));
        if compatible != Good(true) {
          return Some(if compatible.Bad? then Corrupt else Conflict);
        }
      } else if Record(BindingRecord) in names {
        return Some(Conflict);
      }
      return None;
    }

    /** The binding of a proposal that is not there yet, or is there with this binding. */
    method SaveBinding(binding: Binding, token: nat, inode: nat) returns (cas: CasOutcome)
      requires IsCanonical(codec) && IsStore(dir.disk) && inode !in dir.disk.inodes && binding.proposalSha256 == place.sha256
      requires ContentOf(dir.disk, BindingRecord) in {None, Some(codec.binding(binding))}
      requires ContentOf(dir.disk, ProposalRecord).Some? ==> ContentOf(dir.disk, BindingRecord).Some?
      modifies dir
      ensures IsInterrupted(dir.disk) && IsWriteOnce(old(dir.disk), dir.disk)
      ensures forall key :: key != BindingRecord ==> ContentOf(dir.disk, key) == ContentOf(old(dir.disk), key)
      ensures IsSound(old(dir.disk), place, codec) ==> IsSound(dir.disk, place, codec)
      ensures cas.Stored? ==> IsStore(dir.disk) && ContentOf(dir.disk, BindingRecord) == Some(codec.binding(binding))
      ensures HasTemporary(dir.disk) ==> cas in {IoFailed, CasDied}
      ensures cas !in {StateConflict, CorruptState}
      ensures ContentOf(old(dir.disk), BindingRecord).Some? ==> dir.disk == old(dir.disk) && cas.Stored?
      ensures cas.InvalidIdentity? <==> !Fits(BindingRecord, codec.binding(binding))
      ensures dir.faults >= old(dir.faults) && (cas in {IoFailed, CasDied} ==> dir.faults > old(dir.faults))
      ensures dir.disk.inodes.Keys <= old(dir.disk).inodes.Keys + {inode}
    {
      ghost var before := dir.disk;
      cas := Save(BindingRecord, codec.binding(binding), token, inode);
      if IsSound(before, place, codec) {
        WriteReplaces(before, dir.disk, BindingRecord, codec.binding(binding), codec);
      }
    }

    /** The write of a proposal, its binding settled. */
    method SaveProposalText(proposal: Proposal, token: nat, inode: nat) returns (cas: CasOutcome)
      requires IsCanonical(codec) && IsStore(dir.disk) && inode !in dir.disk.inodes
      requires proposal.sha256 == place.sha256 && proposal.repository == place.repository
      requires ContentOf(dir.disk, ProposalRecord) in {None, Some(codec.proposal(proposal))}
      requires proposal.kind == Repair <==> ContentOf(dir.disk, BindingRecord).Some?
      modifies dir
      ensures IsInterrupted(dir.disk) && IsWriteOnce(old(dir.disk), dir.disk)
      ensures forall key :: key != ProposalRecord ==> ContentOf(dir.disk, key) == ContentOf(old(dir.disk), key)
      ensures IsSound(old(dir.disk), place, codec) ==>
        IsSound(dir.disk, place, codec) && (cas.Stored? ==> LoadOn(dir.disk, place, codec).Some?)
      ensures cas.Stored? ==> !HasTemporary(dir.disk) && ContentOf(dir.disk, ProposalRecord) == Some(codec.proposal(proposal))
      ensures HasTemporary(dir.disk) ==> cas in {IoFailed, CasDied}
      ensures cas !in {StateConflict, CorruptState}
      ensures ContentOf(old(dir.disk), ProposalRecord).Some? ==> dir.disk == old(dir.disk) && cas.Stored?
      ensures cas.InvalidIdentity? <==> !Fits(ProposalRecord, codec.proposal(proposal))
      ensures dir.faults >= old(dir.faults) && (cas in {IoFailed, CasDied} ==> dir.faults > old(dir.faults))
      ensures dir.disk.inodes.Keys <= old(dir.disk).inodes.Keys + {inode}
    {
      ghost var before := dir.disk;
      cas := Save(ProposalRecord, codec.proposal(proposal), token, inode);
      if IsSound(before, place, codec) {
        ProposalIsSound(before, dir.disk, proposal, cas, place, codec);
      }
      if cas.Stored? {
        StoreHasNoTemporary(dir.disk);
      }
    }

    /** The proposal itself, its binding settled. */
    method SaveProposal(proposal: Proposal, token: nat, inode: nat) returns (outcome: Outcome)
      requires IsCanonical(codec) && IsStore(dir.disk) && inode !in dir.disk.inodes
      requires proposal.sha256 == place.sha256 && proposal.repository == place.repository
      requires ContentOf(dir.disk, ProposalRecord) in {None, Some(codec.proposal(proposal))}
      requires proposal.kind == Repair <==> ContentOf(dir.disk, BindingRecord).Some?
      modifies dir
      ensures IsInterrupted(dir.disk) && IsWriteOnce(old(dir.disk), dir.disk)
      ensures forall key :: key != ProposalRecord ==> ContentOf(dir.disk, key) == ContentOf(old(dir.disk), key)
      ensures IsSound(old(dir.disk), place, codec) ==> IsSound(dir.disk, place, codec) && !outcome.Corrupt?
      ensures HasTemporary(dir.disk) ==> outcome in {Failed, Outcome.Died}
      ensures !outcome.Conflict?
      ensures outcome.BadInput? <==> !Fits(ProposalRecord, codec.proposal(proposal))
      ensures dir.faults >= old(dir.faults) && (outcome in {Failed, Outcome.Died} ==> dir.faults > old(dir.faults))
      ensures outcome.Loaded? ==> outcome.status.proposal == proposal && LoadOn(dir.disk, place, codec) == Some(outcome.status)
      ensures IsSound(old(dir.disk), place, codec) && ContentOf(old(dir.disk), ProposalRecord).Some? ==>
        dir.disk == old(dir.disk) && outcome.Loaded?
      ensures dir.disk.inodes.Keys <= old(dir.disk).inodes.Keys + {inode}
    {
      var cas := SaveProposalText(proposal, token, inode);
      if !cas.Stored? {
        return OutcomeOf(cas);
      }
      outcome := LoadStatus();
    }

    /** The two writes of a proposal that passed the checks. */
    method WriteProposal(proposal: Proposal, sessionId: Option<string>, token: nat, inode: nat, inode': nat) returns (outcome: Outcome)
      requires IsCanonical(codec) && IsInterrupted(dir.disk) && !HasTemporary(dir.disk)
      requires CanWrite(dir.disk, proposal, sessionId, place, codec)
      requires inode !in dir.disk.inodes && inode' !in dir.disk.inodes && inode' != inode
      modifies dir
      ensures Kept(old(dir.disk), dir.disk, {ProposalRecord, BindingRecord}, outcome, place, codec)
      ensures IsSound(old(dir.disk), place, codec) ==> !outcome.Corrupt?
      ensures outcome.BadInput? ==> IsTooLong(proposal, sessionId, codec)
      ensures IsTooLong(proposal, sessionId, codec) ==> outcome in {BadInput, Failed, Outcome.Died}
      ensures IsSound(old(dir.disk), place, codec) ==> !outcome.Conflict?
      ensures dir.faults >= old(dir.faults) && (outcome in {Failed, Outcome.Died} ==> dir.faults > old(dir.faults))
      ensures outcome.Loaded? ==> outcome.status.proposal == proposal && LoadOn(dir.disk, place, codec) == Some(outcome.status)
      ensures outcome.Loaded? && proposal.kind == Repair ==>
        ContentOf(dir.disk, BindingRecord) == Some(codec.binding(Binding(proposal.sha256, sessionId.value)))
      ensures IsSound(old(dir.disk), place, codec) && ContentOf(old(dir.disk), ProposalRecord).Some? ==>
        outcome.Loaded? && dir.disk == old(dir.disk)
      ensures dir.disk.inodes.Keys <= old(dir.disk).inodes.Keys + {inode, inode'}
    {
      ghost var before := dir.disk;
      WithoutTemporaryIsStore(dir.disk);
      var saved := BindFirst(proposal, sessionId, token, inode);
      ghost var between := dir.disk;
      if !saved.Stored? {
        return OutcomeOf(saved);
      }
      outcome := SaveProposal(proposal, token, inode');
      OnceThenOnce(before, between, dir.disk);
    }

    /** The binding of a repair, before its proposal. */
    method BindFirst(proposal: Proposal, sessionId: Option<string>, token: nat, inode: nat) returns (saved: CasOutcome)
      requires IsCanonical(codec) && IsStore(dir.disk) && CanWrite(dir.disk, proposal, sessionId, place, codec)
      requires inode !in dir.disk.inodes
      modifies dir
      ensures IsInterrupted(dir.disk) && IsWriteOnce(old(dir.disk), dir.disk)
      ensures forall key :: key != BindingRecord ==> ContentOf(dir.disk, key) == ContentOf(old(dir.disk), key)
      ensures IsSound(old(dir.disk), place, codec) ==> IsSound(dir.disk, place, codec)
      ensures saved.Stored? ==> IsStore(dir.disk) && (proposal.kind == Repair <==> ContentOf(dir.disk, BindingRecord).Some?)
      ensures saved.Stored? && proposal.kind == Repair ==>
        ContentOf(dir.disk, BindingRecord) == Some(codec.binding(Binding(proposal.sha256, sessionId.value)))
      ensures saved !in {StateConflict, CorruptState} && (HasTemporary(dir.disk) ==> saved in {IoFailed, CasDied})
      ensures ContentOf(old(dir.disk), ProposalRecord).Some? ==> dir.disk == old(dir.disk) && saved.Stored?
      ensures saved.InvalidIdentity? <==>
        proposal.kind == Repair && !Fits(BindingRecord, codec.binding(Binding(proposal.sha256, sessionId.value)))
      ensures saved in {IoFailed, CasDied} ==> dir.faults > old(dir.faults)
      ensures dir.faults >= old(dir.faults)
      ensures dir.disk.inodes.Keys <= old(dir.disk).inodes.Keys + {inode}
    {
      StoreHasNoTemporary(dir.disk);
      saved := Stored;
      if proposal.kind == Repair {
        saved := SaveBinding(Binding(proposal.sha256, sessionId.value), token, inode);
      }
    }

    /** `_record_proposal` and the status that follows it: the binding is written first. */
    method RecordProposal(proposal: Proposal, sessionId: Option<string>, token: nat, inode: nat, inode': nat) returns (outcome: Outcome)
      requires IsCanonical(codec) && IsInterrupted(dir.disk)
      requires inode !in dir.disk.inodes && inode' !in dir.disk.inodes && inode' != inode
      modifies dir
      ensures Kept(old(dir.disk), dir.disk, {ProposalRecord, BindingRecord}, outcome, place, codec)
      ensures outcome.Corrupt? && IsSound(old(dir.disk), place, codec) ==> HasTemporary(old(dir.disk))
      ensures HasTemporary(old(dir.disk)) ==> outcome in {Corrupt, BadInput} && dir.disk == old(dir.disk)
      ensures outcome.Loaded? ==> outcome.status.proposal == proposal && LoadOn(dir.disk, place, codec) == Some(outcome.status)
      ensures outcome.Loaded? && proposal.kind == Repair ==>
        sessionId.Some? && RecordsOn(dir.disk, codec).binding == Some(Binding(proposal.sha256, sessionId.value))
      ensures IsSaidAlready(old(dir.disk), proposal, sessionId, place, codec) ==>
        outcome == Loaded(LoadOn(old(dir.disk), place, codec).value) && dir.disk == old(dir.disk)
      ensures !ProposalIsGood(proposal, sessionId, place) ==> outcome.BadInput?
      ensures outcome.BadInput? ==> !ProposalIsGood(proposal, sessionId, place) || IsTooLong(proposal, sessionId, codec)
      ensures IsSound(old(dir.disk), place, codec) && !HasTemporary(old(dir.disk)) ==>
        var clashes := ProposalClashes(RecordsOn(old(dir.disk), codec), proposal, sessionId);
        && (outcome.Conflict? <==> ProposalIsGood(proposal, sessionId, place) && clashes)
        && (!clashes && IsTooLong(proposal, sessionId, codec) ==> outcome in {BadInput, Failed, Outcome.Died})
      ensures dir.faults >= old(dir.faults) && (outcome in {Failed, Outcome.Died} ==> dir.faults > old(dir.faults))
      ensures dir.disk.inodes.Keys <= old(dir.disk).inodes.Keys + {inode, inode'}
    {
      if IsSaidAlready(dir.disk, proposal, sessionId, place, codec) {
        SaidAlready(dir.disk, proposal, sessionId, place, codec);
      }
      var refusal := CheckProposal(proposal, sessionId);
      if refusal.Some? {
        return refusal.value;
      }
      outcome := WriteProposal(proposal, sessionId, token, inode, inode');
    }
  }

  lemma {:induction false} OnceThenOnce(before: Store, between: Store, after: Store)
    requires Valid(before) && Valid(between) && Valid(after) && IsWriteOnce(before, between) && IsWriteOnce(between, after)
    ensures IsWriteOnce(before, after)
  {
  }

  /** A write of the proposal keeps a sound store sound, and the status then loads. */
  lemma {:induction false} ProposalIsSound(before: Store, after: Store, proposal: Proposal, cas: CasOutcome, place: Place, codec: Codec)
    requires IsCanonical(codec) && IsSound(before, place, codec) && Valid(after)
    requires IsWrite(before, after, ProposalRecord, codec.proposal(proposal), cas, codec)
    requires proposal.sha256 == place.sha256 && proposal.repository == place.repository
    requires proposal.kind == Repair <==> ContentOf(before, BindingRecord).Some?
    requires ContentOf(before, ProposalRecord) in {None, Some(codec.proposal(proposal))}
    ensures IsSound(after, place, codec) && (cas.Stored? ==> LoadOn(after, place, codec).Some?)
  {
    WriteReplaces(before, after, ProposalRecord, codec.proposal(proposal), codec);
    if RecordsOn(before, codec).proposal.None? {
      ProposalKeeps(RecordsOn(before, codec), proposal, place);
    }
    if cas.Stored? {
      StoreLoads(after, place, codec);
    }
  }

  /** Records that build on a proposal, without one. */
  predicate IsOrphaned(disk: Store) {
    Record(ProposalRecord) !in disk.names && exists key :: key in {ApprovalRecord, BranchRecord, ResultRecord} && Record(key) in disk.names
  }

  /** The proposal and its binding are absent or as given, and the binding is not missing. */
  predicate CanWrite(disk: Store, proposal: Proposal, sessionId: Option<string>, place: Place, codec: Codec)
    requires Valid(disk)
  {
    && proposal.sha256 == place.sha256 && proposal.repository == place.repository && (proposal.kind == Repair <==> sessionId.Some?)
    && ContentOf(disk, ProposalRecord) in {None, Some(codec.proposal(proposal))}
    && (proposal.kind == Check ==> ContentOf(disk, BindingRecord).None?)
    && (proposal.kind == Repair ==>
         && ContentOf(disk, BindingRecord) in {None, Some(codec.binding(Binding(proposal.sha256, sessionId.value)))}
         && (ContentOf(disk, ProposalRecord).Some? ==> ContentOf(disk, BindingRecord).Some?))
  }

  /** What is on the disk when the proposal is there already. */
  lemma {:induction false} SaidAlready(disk: Store, proposal: Proposal, sessionId: Option<string>, place: Place, codec: Codec)
    requires IsCanonical(codec) && IsSaidAlready(disk, proposal, sessionId, place, codec)
    ensures ContentOf(disk, ProposalRecord) == Some(codec.proposal(proposal))
    ensures proposal.sha256 == place.sha256 && proposal.repository == place.repository
    ensures proposal.kind == Repair ==>
      sessionId.Some? && ContentOf(disk, BindingRecord) == Some(codec.binding(Binding(proposal.sha256, sessionId.value)))
    ensures proposal.kind == Check ==> sessionId.None? && ContentOf(disk, BindingRecord).None?
    ensures LoadOn(disk, place, codec) == Load(RecordsOn(disk, codec), place) && LoadOn(disk, place, codec).Some?
  {
    SettledWithoutTemporary(disk);
    if proposal.kind == Repair {
      var binding := RecordsOn(disk, codec).binding.value;
      assert binding == Binding(proposal.sha256, sessionId.value);
      assert ContentOf(disk, BindingRecord) == Some(codec.binding(binding));
    }
  }

  // ----- which arguments are refused, in terms of the records

  /** The proposal belongs here, and a repair comes with its session. */
  predicate ProposalIsGood(proposal: Proposal, sessionId: Option<string>, place: Place) {
    proposal.sha256 == place.sha256 && proposal.repository == place.repository && (proposal.kind == Repair <==> sessionId.Some?)
  }

  /** Another proposal is saved, or another session's binding. */
  predicate ProposalClashes(records: Records, proposal: Proposal, sessionId: Option<string>) {
    || records.proposal !in {None, Some(proposal)}
    || (proposal.kind == Check && records.binding.Some?)
    || (proposal.kind == Repair && sessionId.Some? && records.binding !in {None, Some(Binding(proposal.sha256, sessionId.value))})
  }

  /** The proposal, or the binding of a repair, cannot be stored. */
  predicate IsTooLong(proposal: Proposal, sessionId: Option<string>, codec: Codec) {
    || !Fits(ProposalRecord, codec.proposal(proposal))
    || (proposal.kind == Repair && sessionId.Some? && !Fits(BindingRecord, codec.binding(Binding(proposal.sha256, sessionId.value))))
  }

  lemma {:induction false} ProposalContent(disk: Store, proposal: Proposal, binding: Binding, codec: Codec)
    requires IsCanonical(codec) && Valid(disk) && IsLegible(disk, codec)
    ensures RecordsOn(disk, codec).proposal == Some(proposal) <==> ContentOf(disk, ProposalRecord) == Some(codec.proposal(proposal))
    ensures RecordsOn(disk, codec).proposal.None? <==> ContentOf(disk, ProposalRecord).None?
    ensures RecordsOn(disk, codec).binding == Some(binding) <==> ContentOf(disk, BindingRecord) == Some(codec.binding(binding))
    ensures RecordsOn(disk, codec).binding.None? <==> ContentOf(disk, BindingRecord).None?
  {
    assert ContentOf(disk, ProposalRecord).Some? ==> Decodes(ProposalRecord, ContentOf(disk, ProposalRecord).value, codec);
    assert ContentOf(disk, BindingRecord).Some? ==> Decodes(BindingRecord, ContentOf(disk, BindingRecord).value, codec);
  }

  /** The approval is of the proposal, within its validity, and can be stored. */
  predicate ApprovalIsGood(records: Records, approval: Approval, codec: Codec) {
    records.proposal.Some? && ApprovalMatches(records.proposal.value, approval) && Fits(ApprovalRecord, codec.approval(approval))
  }

  /** The result is a branch that this repair made. */
  predicate BranchIsGoodFor(proposal: Proposal, result: Publication, place: Place) {
    result.kind == Repair && result.state == BranchCreated && MatchesProposal(proposal, result, place)
  }

  predicate BranchIsGood(records: Records, result: Publication, place: Place) {
    records.proposal.Some? && BranchIsGoodFor(records.proposal.value, result, place)
  }

  /** Another approval is saved, another branch, or a result without a branch. */
  predicate BranchClashes(records: Records, result: Publication) {
    || records.approval != Some(result.approval)
    || records.branch !in {None, Some(result)}
    || (records.branch.None? && records.result.Some?)
  }

  /** The result ends a publication of this proposal. */
  predicate ResultIsGoodFor(proposal: Proposal, result: Publication, place: Place) {
    result.state != BranchCreated && MatchesProposal(proposal, result, place)
  }

  predicate ResultIsGood(records: Records, result: Publication, place: Place) {
    records.proposal.Some? && ResultIsGoodFor(records.proposal.value, result, place)
  }

  /** Another approval is saved, another result, or a branch that this result does not continue. */
  predicate ResultClashes(records: Records, result: Publication) {
    || records.approval != Some(result.approval)
    || records.result !in {None, Some(result)}
    || (records.result.None? && records.branch.Some? && !SameRecovery(records.branch.value, result))
  }

  /** The record of a store that loads is this one exactly when the file holds its text. */
  lemma {:induction false} ApprovalContent(disk: Store, approval: Approval, place: Place, codec: Codec)
    requires IsCanonical(codec) && Valid(disk) && LoadOn(disk, place, codec).Some?
    ensures RecordsOn(disk, codec).approval == Some(approval) <==> ContentOf(disk, ApprovalRecord) == Some(codec.approval(approval))
    ensures RecordsOn(disk, codec).approval.None? <==> ContentOf(disk, ApprovalRecord).None?
    ensures ContentOf(disk, ApprovalRecord).Some? ==> Decodes(ApprovalRecord, ContentOf(disk, ApprovalRecord).value, codec)
  {
    assert ContentOf(disk, ApprovalRecord).Some? ==> Decodes(ApprovalRecord, ContentOf(disk, ApprovalRecord).value, codec);
  }

  /** The checks of a branch result against the status, before it is written. */
  method JudgePartial(status: Status, result: Publication, place: Place) returns (verdict: Option<Outcome>)
    requires PublicationOk(result)
    ensures verdict in {None, Some(BadInput), Some(Conflict), Some(Loaded(status))}
    ensures verdict == Some(Loaded(status)) ==> status.partial == Some(result)
    ensures verdict == Some(BadInput) <==> !BranchIsGoodFor(status.proposal, result, place)
    ensures verdict == Some(Conflict) <==>
      && BranchIsGoodFor(status.proposal, result, place)
      && (status.approval != Some(result.approval) || status.partial !in {None, Some(result)} || (status.partial.None? && status.result.Some?))
    ensures status.partial == Some(result) && LoadedStateOk(status) && PublicationOk(result) && MatchesProposal(status.proposal, result, place) ==>
      verdict == Some(Loaded(status))
    ensures verdict.None? ==>
      && MatchesProposal(status.proposal, result, place) && status.approval == Some(result.approval)
      && status.partial.None? && status.result.None? && result.kind == Repair && result.state == BranchCreated
  {
    if result.proposalSha256 != status.proposal.sha256 || result.kind != Repair || result.state != BranchCreated {
      return Some(BadInput);
    }
    if !MatchesProposal(status.proposal, result, place) {
      return Some(BadInput);
    }
    if status.approval != Some(result.approval) {
      return Some(Conflict);
    }
    if status.partial.Some? {
      return Some(if status.partial == Some(result) then Loaded(status) else Conflict);
    }
    if status.result.Some? {
      return Some(Conflict);
    }
    return None;
  }

  /** The checks of a final result against the status, before it is written. */
  method JudgeResult(status: Status, result: Publication, place: Place) returns (verdict: Option<Outcome>)
    requires PublicationOk(result)
    ensures verdict in {None, Some(BadInput), Some(Conflict), Some(Loaded(status))}
    ensures verdict == Some(Loaded(status)) ==> status.result == Some(result)
    ensures verdict == Some(BadInput) <==> !ResultIsGoodFor(status.proposal, result, place)
    ensures verdict == Some(Conflict) <==>
      && ResultIsGoodFor(status.proposal, result, place)
      && (status.approval != Some(result.approval) || status.result !in {None, Some(result)}
          || (status.result.None? && status.partial.Some? && !SameRecovery(status.partial.value, result)))
    ensures status.result == Some(result) && LoadedStateOk(status) && PublicationOk(result) && MatchesProposal(status.proposal, result, place) ==>
      verdict == Some(Loaded(status))
    ensures verdict.None? ==>
      && MatchesProposal(status.proposal, result, place) && status.approval == Some(result.approval)
      && status.result.None? && result.kind == status.proposal.kind && result.state != BranchCreated
      && (status.partial.Some? ==> SameRecovery(status.partial.value, result))
  {
    if result.proposalSha256 != status.proposal.sha256 || result.kind != status.proposal.kind || result.state == BranchCreated {
      return Some(BadInput);
    }
    if !MatchesProposal(status.proposal, result, place) {
      return Some(BadInput);
    }
    if status.approval != Some(result.approval) {
      return Some(Conflict);
    }
    if status.result.Some? {
      return Some(if status.result == Some(result) then Loaded(status) else Conflict);
    }
    if status.partial.Some? && !SameRecovery(status.partial.value, result) {
      return Some(Conflict);
    }
    return None;
  }

  lemma {:induction false} SizeOfContent(disk: Store, key: RecordKey)
    requires IsStore(disk)
    ensures ContentOf(disk, key).Some? ==> 0 < |ContentOf(disk, key).value| <= LimitOf(key)
  {
  }

  /** What a call leaves: a disk that recovery understands; contents written once, and only those of
      its own records; a sound store still sound; a temporary only after a failed or dying write. */
  ghost predicate Kept(before: Store, after: Store, own: set<RecordKey>, outcome: Outcome, place: Place, codec: Codec)
    requires Valid(before)
  {
    && IsInterrupted(after) && IsWriteOnce(before, after)
    && (forall key :: key !in own ==> ContentOf(after, key) == ContentOf(before, key))
    && (IsSound(before, place, codec) ==> IsSound(after, place, codec))
    && (HasTemporary(after) && !HasTemporary(before) ==> outcome in {Failed, Outcome.Died})
    && (outcome.Conflict? || (outcome.Corrupt? && IsSound(before, place, codec)) ==> after == before)
  }

  /** The proposal is there already, with this session. */
  ghost predicate IsSaidAlready(disk: Store, proposal: Proposal, sessionId: Option<string>, place: Place, codec: Codec) {
    && IsSound(disk, place, codec) && !HasTemporary(disk) && RecordsOn(disk, codec).proposal == Some(proposal)
    && if proposal.kind == Repair then sessionId == Some(RecordsOn(disk, codec).binding.value.sessionId) else sessionId.None?
  }

  // ----- sessions

  /** What a call that succeeded was to save can be read back. */
  predicate IsSavedOn(call: Call, disk: Store, codec: Codec)
    requires Valid(disk)
  {
    IsSaved(call, RecordsOn(disk, codec))
  }

  lemma {:induction false} StaysSaved(call: Call, before: Store, after: Store, codec: Codec)
    requires Valid(before) && Valid(after) && IsSavedOn(call, before, codec) && IsWriteOnce(before, after)
    ensures IsSavedOn(call, after, codec)
  {
    assert Keeps(ContentOf(before, ProposalRecord), ContentOf(after, ProposalRecord));
    assert Keeps(ContentOf(before, ApprovalRecord), ContentOf(after, ApprovalRecord));
    assert Keeps(ContentOf(before, BranchRecord), ContentOf(after, BranchRecord));
    assert Keeps(ContentOf(before, ResultRecord), ContentOf(after, ResultRecord));
  }

  /** Some inode the kernel may pick. */
  method FreshInode(taken: set<nat>) returns (inode: nat)
    ensures inode !in taken
  {
    inode := 0;
    var rest := taken;
    while rest != {}
      invariant rest <= taken && forall k :: k in taken ==> k in rest || k < inode
    {
      var k :| k in rest;
      rest := rest - {k};
      if inode <= k {
        inode := k + 1;
      }
    }
  }

  /** What one call on a sound store leaves. */
  ghost predicate IsServed(before: Store, after: Store, call: Call, outcome: Outcome, place: Place, codec: Codec)
    requires Valid(before)
  {
    && IsSound(after, place, codec) && IsWriteOnce(before, after)
    && (outcome.Loaded? ==> IsSavedOn(call, after, codec))
    && (HasTemporary(after) && !HasTemporary(before) ==> outcome in {Failed, Outcome.Died})
    && (HasTemporary(before) ==> outcome in {Corrupt, BadInput} && after == before)
    && (RecordsOn(before, codec).proposal.Some? && outcome.Corrupt? ==> HasTemporary(before))
  }

  lemma {:induction false} CallIsServed(before: Store, after: Store, call: Call, own: set<RecordKey>, outcome: Outcome, place: Place, codec: Codec)
    requires IsSound(before, place, codec) && Kept(before, after, own, outcome, place, codec)
    requires outcome.Loaded? ==> LoadOn(after, place, codec) == Some(outcome.status) && IsSavedIn(call, outcome.status)
    requires outcome.Corrupt? ==> LoadOn(before, place, codec).None? && after == before
    requires HasTemporary(before) ==> outcome in {Corrupt, BadInput} && after == before
    ensures IsServed(before, after, call, outcome, place, codec)
  {
    if RecordsOn(before, codec).proposal.Some? {
      CorruptExactlyWhileStuck(before, place, codec);
    }
  }

  predicate IsSavedIn(call: Call, status: Status) {
    match call
    case SaveProposal(proposal, _) => status.proposal == proposal
    case SaveApproval(approval) => status.approval == Some(approval)
    case SaveBranch(branch) => status.partial == Some(branch)
    case SaveResult(result) => status.result == Some(result)
  }

  method ServeProposal(publication: LockedPublication, proposal: Proposal, sessionId: Option<string>, token: nat, inode: nat) returns (outcome: Outcome)
    requires IsCanonical(publication.codec) && IsSound(publication.dir.disk, publication.place, publication.codec)
    requires inode !in publication.dir.disk.inodes
    modifies publication.dir
    ensures Valid(old(publication.dir.disk))
    ensures IsServed(old(publication.dir.disk), publication.dir.disk, SaveProposal(proposal, sessionId), outcome, publication.place, publication.codec)
  {
    var inode' := FreshInode(publication.dir.disk.inodes.Keys + {inode});
    outcome := publication.RecordProposal(proposal, sessionId, token, inode, inode');
  }

  method ServeApproval(publication: LockedPublication, approval: Approval, token: nat, inode: nat) returns (outcome: Outcome)
    requires IsCanonical(publication.codec) && IsSound(publication.dir.disk, publication.place, publication.codec)
    requires inode !in publication.dir.disk.inodes
    modifies publication.dir
    ensures Valid(old(publication.dir.disk))
    ensures IsServed(old(publication.dir.disk), publication.dir.disk, SaveApproval(approval), outcome, publication.place, publication.codec)
  {
    ghost var before := publication.dir.disk;
    outcome := publication.RecordApproval(approval, token, inode);
    CallIsServed(before, publication.dir.disk, SaveApproval(approval), {ApprovalRecord}, outcome, publication.place, publication.codec);
  }

  method ServeBranch(publication: LockedPublication, branch: Publication, token: nat, inode: nat) returns (outcome: Outcome)
    requires IsCanonical(publication.codec) && IsSound(publication.dir.disk, publication.place, publication.codec)
    requires inode !in publication.dir.disk.inodes && PublicationOk(branch)
    modifies publication.dir
    ensures Valid(old(publication.dir.disk))
    ensures IsServed(old(publication.dir.disk), publication.dir.disk, SaveBranch(branch), outcome, publication.place, publication.codec)
  {
    ghost var before := publication.dir.disk;
    outcome := publication.RecordPartialResult(branch, token, inode);
    CallIsServed(before, publication.dir.disk, SaveBranch(branch), {BranchRecord}, outcome, publication.place, publication.codec);
  }

  method ServeResult(publication: LockedPublication, result: Publication, token: nat, inode: nat) returns (outcome: Outcome)
    requires IsCanonical(publication.codec) && IsSound(publication.dir.disk, publication.place, publication.codec)
    requires inode !in publication.dir.disk.inodes && PublicationOk(result)
    modifies publication.dir
    ensures Valid(old(publication.dir.disk))
    ensures IsServed(old(publication.dir.disk), publication.dir.disk, SaveResult(result), outcome, publication.place, publication.codec)
  {
    ghost var before := publication.dir.disk;
    outcome := publication.RecordResult(result, token, inode);
    CallIsServed(before, publication.dir.disk, SaveResult(result), {ResultRecord}, outcome, publication.place, publication.codec);
  }

  /** One call on a locked publication. */
  method Serve(publication: LockedPublication, call: Call) returns (outcome: Outcome)
    requires IsCanonical(publication.codec) && IsSound(publication.dir.disk, publication.place, publication.codec) && CallOk(call)
    modifies publication.dir
    ensures Valid(old(publication.dir.disk))
    ensures IsServed(old(publication.dir.disk), publication.dir.disk, call, outcome, publication.place, publication.codec)
  {
    var inode := FreshInode(publication.dir.disk.inodes.Keys);
    var token: nat := *;
    match call
    case SaveProposal(proposal, sessionId) => outcome := ServeProposal(publication, proposal, sessionId, token, inode);
    case SaveApproval(approval) => outcome := ServeApproval(publication, approval, token, inode);
    case SaveBranch(branch) => outcome := ServeBranch(publication, branch, token, inode);
    case SaveResult(result) => outcome := ServeResult(publication, result, token, inode);
  }

  /** The outcomes of one session: up to the first write that fails and leaves its temporary (at
      `stuck`), no call reads corruption; after it, every call that reads the store does. */
  predicate IsLawful(outcomes: seq<Outcome>, stuck: nat) {
    && stuck <= |outcomes|
    && (stuck < |outcomes| ==> outcomes[stuck] in {Failed, Outcome.Died})
    && (forall i :: 0 <= i <= stuck && i < |outcomes| ==> !outcomes[i].Corrupt?)
    && (forall i :: stuck < i < |outcomes| ==> outcomes[i] in {Corrupt, BadInput})
  }

  /** Where a session stands after the calls served so far. */
  ghost predicate IsGoing(first: Store, now: Store, calls: seq<Call>, outcomes: seq<Outcome>, stuck: nat, place: Place, codec: Codec)
    requires Valid(first)
  {
    && IsSound(now, place, codec) && IsWriteOnce(first, now) && AreSaved(calls, outcomes, now, codec)
    && (RecordsOn(first, codec).proposal.Some? ==> IsLawful(outcomes, stuck))
    && stuck <= |outcomes| && (stuck < |outcomes| <==> HasTemporary(now))
  }

  lemma {:induction false} StillGoing(first: Store, before: Store, now: Store, calls: seq<Call>, outcomes: seq<Outcome>, stuck: nat,
      outcome: Outcome, place: Place, codec: Codec) returns (stuck': nat)
    requires Valid(first) && IsGoing(first, before, calls, outcomes, stuck, place, codec) && |outcomes| < |calls|
    requires IsServed(before, now, calls[|outcomes|], outcome, place, codec)
    ensures IsGoing(first, now, calls, outcomes + [outcome], stuck', place, codec)
  {
    ProposalStays(first, before, codec);
    StaySaved(calls, outcomes, before, now, codec);
    stuck' := if HasTemporary(now) then stuck else |outcomes| + 1;
  }

  /** One lock session: recovery, then calls until they are done or the process dies. */
  method RunSession(publication: LockedPublication, calls: seq<Call>) returns (outcomes: seq<Outcome>, ghost stuck: nat)
    requires IsCanonical(publication.codec) && IsSound(publication.dir.disk, publication.place, publication.codec)
    requires forall i :: 0 <= i < |calls| ==> CallOk(calls[i])
    modifies publication.dir
    ensures Valid(old(publication.dir.disk))
    ensures IsGoing(old(publication.dir.disk), publication.dir.disk, calls, outcomes, stuck, publication.place, publication.codec)
    ensures |outcomes| < |calls| ==> outcomes != [] && Last(outcomes).Died?
  {
    ghost var first := publication.dir.disk;
    StartSession(publication);
    outcomes, stuck := [], 0;
    while |outcomes| < |calls|
      invariant |outcomes| <= |calls|
      invariant IsGoing(first, publication.dir.disk, calls, outcomes, stuck, publication.place, publication.codec)
    {
      var outcome;
      outcome, stuck := ServeNext(publication, calls, outcomes, first, stuck);
      outcomes := outcomes + [outcome];
      if outcome.Died? {
        return;
      }
    }
  }

  method ServeNext(publication: LockedPublication, calls: seq<Call>, outcomes: seq<Outcome>, ghost first: Store, ghost stuck: nat)
    returns (outcome: Outcome, ghost stuck': nat)
    requires IsCanonical(publication.codec) && |outcomes| < |calls| && CallOk(calls[|outcomes|]) && Valid(first)
    requires IsGoing(first, publication.dir.disk, calls, outcomes, stuck, publication.place, publication.codec)
    modifies publication.dir
    ensures IsGoing(first, publication.dir.disk, calls, outcomes + [outcome], stuck', publication.place, publication.codec)
  {
    ghost var before := publication.dir.disk;
    outcome := Serve(publication, calls[|outcomes|]);
    stuck' := StillGoing(first, before, publication.dir.disk, calls, outcomes, stuck, outcome, publication.place, publication.codec);
  }

  /** Taking the lock: recovery settles whatever the last session left. */
  method StartSession(publication: LockedPublication)
    requires IsSound(publication.dir.disk, publication.place, publication.codec)
    modifies publication.dir
    ensures Valid(old(publication.dir.disk))
    ensures forall calls :: IsGoing(old(publication.dir.disk), publication.dir.disk, calls, [], 0, publication.place, publication.codec)
  {
    ghost var first := publication.dir.disk;
    var ok := RecoverRecordTemporary(publication.dir);
    SettledIsSound(first, publication.dir.disk, publication.place, publication.codec);
  }

  lemma {:induction false} ProposalStays(first: Store, now: Store, codec: Codec)
    requires Valid(first) && Valid(now) && IsWriteOnce(first, now)
    ensures RecordsOn(first, codec).proposal.Some? ==> RecordsOn(now, codec).proposal.Some?
  {
    assert Keeps(ContentOf(first, ProposalRecord), ContentOf(now, ProposalRecord));
  }

  /** Recovery settles a sound store and changes no content. */
  lemma {:induction false} SettledIsSound(before: Store, after: Store, place: Place, codec: Codec)
    requires IsSound(before, place, codec) && IsStore(after) && SameContents(before, after)
    ensures IsSound(after, place, codec) && IsWriteOnce(before, after) && !HasTemporary(after)
  {
    StoreHasNoTemporary(after);
    forall key ensures ContentOf(after, key) == ContentOf(before, key) {
    }
  }

  /** What any number of sessions leave. */
  ghost predicate HaveRun(first: Store, now: Store, sessions: seq<seq<Call>>, outcomes: seq<seq<Outcome>>, place: Place, codec: Codec)
    requires Valid(first)
  {
    && IsSound(now, place, codec) && IsWriteOnce(first, now) && |outcomes| <= |sessions|
    && (forall s :: 0 <= s < |outcomes| ==> AreSaved(sessions[s], outcomes[s], now, codec))
    && (RecordsOn(first, codec).proposal.Some? ==> forall s :: 0 <= s < |outcomes| ==> BreaksLawfully(outcomes[s]))
  }

  ghost predicate BreaksLawfully(outcomes: seq<Outcome>) { exists stuck :: IsLawful(outcomes, stuck) }

  lemma {:induction false} OneSessionMore(first: Store, before: Store, now: Store, sessions: seq<seq<Call>>, outcomes: seq<seq<Outcome>>,
      outcome: seq<Outcome>, stuck: nat, place: Place, codec: Codec)
    requires Valid(first) && HaveRun(first, before, sessions, outcomes, place, codec) && |outcomes| < |sessions|
    requires IsGoing(before, now, sessions[|outcomes|], outcome, stuck, place, codec)
    ensures HaveRun(first, now, sessions, outcomes + [outcome], place, codec)
  {
    ProposalStays(first, before, codec);
    forall s | 0 <= s < |outcomes| ensures AreSaved(sessions[s], outcomes[s], now, codec) {
      StaySaved(sessions[s], outcomes[s], before, now, codec);
    }
  }

  /** Any number of lock sessions, each of which may fail or die at any step: no content is ever
      changed, what was saved stays saved, and once the proposal exists each session reads the
      store as corrupt exactly after a write of its own that left a temporary. */
  method RunSessions(publication: LockedPublication, sessions: seq<seq<Call>>) returns (outcomes: seq<seq<Outcome>>)
    requires IsCanonical(publication.codec) && IsSound(publication.dir.disk, publication.place, publication.codec)
    requires forall s :: 0 <= s < |sessions| ==> AllOk(sessions[s])
    modifies publication.dir
    ensures Valid(old(publication.dir.disk)) && |outcomes| == |sessions|
    ensures HaveRun(old(publication.dir.disk), publication.dir.disk, sessions, outcomes, publication.place, publication.codec)
  {
    ghost var first := publication.dir.disk;
    outcomes := [];
    while |outcomes| < |sessions|
      invariant |outcomes| <= |sessions|
      invariant HaveRun(first, publication.dir.disk, sessions, outcomes, publication.place, publication.codec)
    {
      ghost var before := publication.dir.disk;
      var outcome;
      ghost var stuck;
      assert AllOk(sessions[|outcomes|]);
      outcome, stuck := RunSession(publication, sessions[|outcomes|]);
      OneSessionMore(first, before, publication.dir.disk, sessions, outcomes, outcome, stuck, publication.place, publication.codec);
      outcomes := outcomes + [outcome];
    }
  }

  predicate AllOk(calls: seq<Call>) { forall i :: 0 <= i < |calls| ==> CallOk(calls[i]) }

  /** Every call that succeeded is saved. */
  predicate AreSaved(calls: seq<Call>, outcomes: seq<Outcome>, disk: Store, codec: Codec)
    requires Valid(disk)
  {
    |outcomes| <= |calls| && forall i :: 0 <= i < |outcomes| && outcomes[i].Loaded? ==> IsSavedOn(calls[i], disk, codec)
  }

  lemma {:induction false} StaySaved(calls: seq<Call>, outcomes: seq<Outcome>, before: Store, after: Store, codec: Codec)
    requires Valid(before) && Valid(after) && IsWriteOnce(before, after) && AreSaved(calls, outcomes, before, codec)
    ensures AreSaved(calls, outcomes, after, codec)
  {
    forall i | 0 <= i < |outcomes| && outcomes[i].Loaded? ensures IsSavedOn(calls[i], after, codec) {
      StaysSaved(calls[i], before, after, codec);
    }
  }
}

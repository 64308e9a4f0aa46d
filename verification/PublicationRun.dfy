/** Publications that go through: on an empty store, with no call failing, every record of a check and of
    a repair is accepted, and the store then holds exactly them. */
module PublicationRun {
  import opened LineSplitting
  import opened DirectoryModel
  import opened PublicationRecords
  import opened GitHubPublication
  import opened PublicationSessions

  const EMPTY := Records(None, None, None, None, None)

  /** A store in which nothing has been saved. */
  ghost predicate IsEmpty(disk: Store, codec: Codec) { IsStore(disk) && forall key :: ContentOf(disk, key).None? }

  lemma {:induction false} EmptyIsSound(disk: Store, place: Place, codec: Codec)
    requires IsEmpty(disk, codec)
    ensures IsSound(disk, place, codec) && !HasTemporary(disk) && RecordsOn(disk, codec) == EMPTY
  {
    StoreHasNoTemporary(disk);
  }

  /** The approval of a proposal, given while it is valid. */
  predicate IsApprovalOf(approval: Approval, proposal: Proposal) {
    && approval == Approval(proposal.sha256, proposal.kind, approval.approvedAt, approval.details)
    && proposal.createdAt <= approval.approvedAt < proposal.expiresAt
  }

  /** What was published under the approval, and read back as such. */
  predicate IsResultOf(result: Publication, state: PublicationState, application: Option<string>, approval: Approval, proposal: Proposal, place: Place) {
    && result == Publication(proposal.sha256, proposal.kind, approval, state, application, result.publishedAt, result.readback)
    && approval.approvedAt <= result.publishedAt && place.readbackOk(proposal, state, result.readback)
  }

  /** What a call leaves that saves one more record: unless a call to the file system failed, it is there. */
  twostate predicate Saves(publication: LockedPublication, outcome: Outcome, records: Records)
    reads publication.dir
  {
    && publication.dir.faults >= old(publication.dir.faults)
    && (publication.dir.faults == old(publication.dir.faults) ==> outcome.Loaded?)
    && (outcome.Loaded? ==> Holds(publication.dir.disk, records, publication.place, publication.codec))
  }

  /** The store loads, and has exactly these records. */
  ghost predicate Holds(disk: Store, records: Records, place: Place, codec: Codec) {
    IsReady(disk, place, codec) && RecordsOn(disk, codec) == records
  }

  method SaveFirst(publication: LockedPublication, proposal: Proposal, sessionId: Option<string>) returns (outcome: Outcome)
    requires IsCanonical(publication.codec) && IsEmpty(publication.dir.disk, publication.codec)
    requires ProposalIsGood(proposal, sessionId, publication.place) && !IsTooLong(proposal, sessionId, publication.codec)
    modifies publication.dir
    ensures Saves(publication, outcome, ProposedRecords(proposal, sessionId))
  {
    ghost var start := publication.dir.disk;
    EmptyIsSound(start, publication.place, publication.codec);
    var inode := FreshInode(publication.dir.disk.inodes.Keys);
    var inode' := FreshInode(publication.dir.disk.inodes.Keys + {inode});
    outcome := publication.RecordProposal(proposal, sessionId, 0, inode, inode');
    if outcome.Loaded? {
      LoadedIsSound(publication.dir.disk, publication.place, publication.codec);
      ProposalSaved(start, publication.dir.disk, publication.codec);
    }
  }

  method SaveApproval(publication: LockedPublication, ghost records: Records, approval: Approval) returns (outcome: Outcome)
    requires IsCanonical(publication.codec) && Holds(publication.dir.disk, records, publication.place, publication.codec)
    requires records.approval.None? && ApprovalIsGood(records, approval, publication.codec)
    modifies publication.dir
    ensures Saves(publication, outcome, records.(approval := Some(approval)))
  {
    ghost var before := publication.dir.disk;
    var inode := FreshInode(publication.dir.disk.inodes.Keys);
    outcome := publication.RecordApproval(approval, 0, inode);
    if outcome.Loaded? {
      AfterSave(before, publication.dir.disk, ApprovalRecord, outcome, publication.place, publication.codec);
    }
  }

  method SaveBranch(publication: LockedPublication, ghost records: Records, branch: Publication) returns (outcome: Outcome)
    requires IsCanonical(publication.codec) && Holds(publication.dir.disk, records, publication.place, publication.codec)
    requires PublicationOk(branch) && BranchIsGood(records, branch, publication.place) && !BranchClashes(records, branch) && records.branch.None?
    requires Fits(BranchRecord, publication.codec.publication(branch))
    modifies publication.dir
    ensures Saves(publication, outcome, records.(branch := Some(branch)))
  {
    ghost var before := publication.dir.disk;
    var inode := FreshInode(publication.dir.disk.inodes.Keys);
    outcome := publication.RecordPartialResult(branch, 0, inode);
    if outcome.Loaded? {
      BranchSaved(before, publication.dir.disk, records, branch, outcome, publication.place, publication.codec);
    }
  }

  lemma {:induction false} BranchSaved(before: Store, after: Store, records: Records, branch: Publication, outcome: Outcome, place: Place, codec: Codec)
    requires Holds(before, records, place, codec) && Kept(before, after, {BranchRecord}, outcome, place, codec)
    requires outcome.Loaded? && outcome.status.partial == Some(branch) && LoadOn(after, place, codec) == Some(outcome.status)
    ensures Holds(after, records.(branch := Some(branch)), place, codec)
  {
    AfterSave(before, after, BranchRecord, outcome, place, codec);
  }

  method SaveResult(publication: LockedPublication, ghost records: Records, result: Publication) returns (outcome: Outcome)
    requires IsCanonical(publication.codec) && Holds(publication.dir.disk, records, publication.place, publication.codec)
    requires PublicationOk(result) && ResultIsGood(records, result, publication.place) && !ResultClashes(records, result) && records.result.None?
    requires Fits(ResultRecord, publication.codec.publication(result))
    modifies publication.dir
    ensures Saves(publication, outcome, records.(result := Some(result)))
  {
    ghost var before := publication.dir.disk;
    var inode := FreshInode(publication.dir.disk.inodes.Keys);
    outcome := publication.RecordResult(result, 0, inode);
    if outcome.Loaded? {
      AfterSave(before, publication.dir.disk, ResultRecord, outcome, publication.place, publication.codec);
    }
  }

  /** The status loads and nothing is left over. */
  ghost predicate IsReady(disk: Store, place: Place, codec: Codec) {
    IsSound(disk, place, codec) && !HasTemporary(disk) && LoadOn(disk, place, codec).Some?
  }

  function ProposedRecords(proposal: Proposal, sessionId: Option<string>): Records {
    EMPTY.(proposal := Some(proposal), binding := if sessionId.Some? then Some(Binding(proposal.sha256, sessionId.value)) else None)
  }

  function ApprovedRecords(proposal: Proposal, sessionId: Option<string>, approval: Approval): Records {
    ProposedRecords(proposal, sessionId).(approval := Some(approval))
  }

  /** After a proposal was saved in an empty store, the other records are still missing. */
  lemma {:induction false} ProposalSaved(before: Store, after: Store, codec: Codec)
    requires Valid(before) && Valid(after) && forall key :: ContentOf(before, key).None?
    requires forall key :: key !in {ProposalRecord, BindingRecord} ==> ContentOf(after, key) == ContentOf(before, key)
    ensures
      var records := RecordsOn(after, codec);
      records.approval.None? && records.branch.None? && records.result.None?
  {
  }

  /** A record that was saved leaves the others as they were. */
  lemma {:induction false} Elsewhere(before: Store, after: Store, key: RecordKey, codec: Codec)
    requires Valid(before) && Valid(after) && forall other :: other != key ==> ContentOf(after, other) == ContentOf(before, other)
    ensures
      var (was, now) := (RecordsOn(before, codec), RecordsOn(after, codec));
      && (key != ProposalRecord ==> now.proposal == was.proposal) && (key != BindingRecord ==> now.binding == was.binding)
      && (key != ApprovalRecord ==> now.approval == was.approval) && (key != BranchRecord ==> now.branch == was.branch)
      && (key != ResultRecord ==> now.result == was.result)
  {
  }

  /** The status loads, with what it says of the one record that was saved and of the others as before. */
  lemma {:induction false} AfterSave(before: Store, after: Store, key: RecordKey, outcome: Outcome, place: Place, codec: Codec)
    requires Valid(before) && Kept(before, after, {key}, outcome, place, codec) && IsSound(before, place, codec)
    requires outcome.Loaded? && LoadOn(after, place, codec) == Some(outcome.status)
    ensures IsReady(after, place, codec)
    ensures
      var (was, now, status) := (RecordsOn(before, codec), RecordsOn(after, codec), outcome.status);
      && now.approval == status.approval && now.branch == status.partial && now.result == status.result
      && (key == ApprovalRecord ==> now == was.(approval := status.approval))
      && (key == BranchRecord ==> now == was.(branch := status.partial))
      && (key == ResultRecord ==> now == was.(result := status.result))
  {
    LoadedIsSound(after, place, codec);
    Elsewhere(before, after, key, codec);
  }

  /** A check goes through: its proposal, its approval and its result are saved, one after the other. */
  method PublishCheck(publication: LockedPublication, proposal: Proposal, approval: Approval, result: Publication) returns (outcome: Outcome)
    requires IsCanonical(publication.codec) && IsEmpty(publication.dir.disk, publication.codec)
    requires proposal.sha256 == publication.place.sha256 && proposal.repository == publication.place.repository && proposal.kind == Check
    requires IsApprovalOf(approval, proposal) && IsResultOf(result, CheckPublished, None, approval, proposal, publication.place)
    requires !IsTooLong(proposal, None, publication.codec) && Fits(ApprovalRecord, publication.codec.approval(approval))
    requires Fits(ResultRecord, publication.codec.publication(result))
    modifies publication.dir
    ensures Saves(publication, outcome, ApprovedRecords(proposal, None, approval).(result := Some(result)))
  {
    outcome := SaveFirst(publication, proposal, None);
    if outcome.Loaded? {
      outcome := SaveApproval(publication, ProposedRecords(proposal, None), approval);
      if outcome.Loaded? {
        outcome := SaveResult(publication, ApprovedRecords(proposal, None, approval), result);
      }
    }
  }

  /** A repair goes through: its binding and proposal, its approval, the branch it made, and the pull
      request in the end. */
  method PublishRepair(publication: LockedPublication, proposal: Proposal, sessionId: string, approval: Approval, branch: Publication, result: Publication)
    returns (outcome: Outcome)
    requires IsCanonical(publication.codec) && IsEmpty(publication.dir.disk, publication.codec)
    requires proposal.sha256 == publication.place.sha256 && proposal.repository == publication.place.repository && proposal.kind == Repair
    requires IsApprovalOf(approval, proposal) && branch.applicationSha256.Some? && branch.publishedAt <= result.publishedAt
    requires IsResultOf(branch, BranchCreated, branch.applicationSha256, approval, proposal, publication.place)
    requires IsResultOf(result, RepairPublished, branch.applicationSha256, approval, proposal, publication.place)
    requires !IsTooLong(proposal, Some(sessionId), publication.codec) && Fits(ApprovalRecord, publication.codec.approval(approval))
    requires Fits(BranchRecord, publication.codec.publication(branch)) && Fits(ResultRecord, publication.codec.publication(result))
    modifies publication.dir
    ensures Saves(publication, outcome, ApprovedRecords(proposal, Some(sessionId), approval).(branch := Some(branch), result := Some(result)))
  {
    ghost var approved := ApprovedRecords(proposal, Some(sessionId), approval);
    outcome := SaveFirst(publication, proposal, Some(sessionId));
    if outcome.Loaded? {
      outcome := SaveApproval(publication, ProposedRecords(proposal, Some(sessionId)), approval);
      if outcome.Loaded? {
        outcome := SaveBranch(publication, approved, branch);
        if outcome.Loaded? {
          outcome := SaveResult(publication, approved.(branch := Some(branch)), result);
        }
      }
    }
  }
}

/** The rules of the GitHub publication protocol over its five write-once records. */
module GitHubPublication {
  import opened LineSplitting

  datatype ProposalKind = Check | Repair

  datatype PublicationState = CheckPublished | BranchCreated | RepairPublished

  // `details` stands for the fields no rule of the store looks at
  datatype Proposal = Proposal(sha256: string, kind: ProposalKind, repository: string, createdAt: nat, expiresAt: nat, details: string)
  datatype Binding = Binding(proposalSha256: string, sessionId: string)
  datatype Approval = Approval(proposalSha256: string, kind: ProposalKind, approvedAt: nat, details: string)
  datatype Publication = Publication(
    proposalSha256: string, kind: ProposalKind, approval: Approval, state: PublicationState,
    applicationSha256: Option<string>, publishedAt: nat, readback: string)

  /** The directory of one proposal. */
  datatype Records = Records(
    proposal: Option<Proposal>, binding: Option<Binding>, approval: Option<Approval>,
    branch: Option<Publication>, result: Option<Publication>)

  /** Where the store looks, and how a readback is judged against a proposal. */
  datatype Place = Place(sha256: string, repository: string, readbackOk: (Proposal, PublicationState, string) -> bool)

  datatype Status = Status(proposal: Proposal, approval: Option<Approval>, partial: Option<Publication>, result: Option<Publication>)

  /** What the constructor of a publication result enforces. */
  predicate PublicationOk(p: Publication) {
    && p.approval.proposalSha256 == p.proposalSha256 && p.approval.kind == p.kind
    && (if p.kind == Check then p.state == CheckPublished && p.applicationSha256.None?
        else p.state in {BranchCreated, RepairPublished} && p.applicationSha256.Some?)
    && p.approval.approvedAt <= p.publishedAt
  }

  /** `validate_github_result` */
  predicate MatchesProposal(proposal: Proposal, p: Publication, place: Place) {
    && p.proposalSha256 == proposal.sha256 && p.kind == proposal.kind && p.approval.proposalSha256 == proposal.sha256
    && place.readbackOk(proposal, p.state, p.readback)
  }

  /** `_approval_matches_proposal` */
  predicate ApprovalMatches(proposal: Proposal, approval: Approval) {
    && approval.proposalSha256 == proposal.sha256 && approval.kind == proposal.kind
    && proposal.createdAt <= approval.approvedAt < proposal.expiresAt
  }

  /** `_require_same_recovery` */
  predicate SameRecovery(partial: Publication, result: Publication) {
    && result.approval == partial.approval && result.applicationSha256 == partial.applicationSha256
    && partial.publishedAt <= result.publishedAt
  }

  function FinalState(kind: ProposalKind): PublicationState {
    if kind == Check then CheckPublished else RepairPublished
  }

  /** `_validate_loaded_state` */
  predicate LoadedStateOk(status: Status) {
    && (status.partial.Some? ==>
         && status.proposal.kind == Repair && status.partial.value.state == BranchCreated
         && status.approval == Some(status.partial.value.approval))
    && (status.result.Some? ==>
         && status.result.value.state == FinalState(status.proposal.kind)
         && status.approval == Some(status.result.value.approval))
    && (status.partial.Some? && status.result.Some? ==> SameRecovery(status.partial.value, status.result.value))
  }

  predicate LoadsPublication(p: Option<Publication>, proposal: Proposal, place: Place) {
    p.Some? ==> PublicationOk(p.value) && MatchesProposal(proposal, p.value, place)
  }

  /** `_load_status` */
  function Load(records: Records, place: Place): Option<Status> {
    if records.proposal.None? then None
    else
      var proposal := records.proposal.value;
      var status := Status(proposal, records.approval, records.branch, records.result);
      if && proposal.sha256 == place.sha256 && proposal.repository == place.repository
         && (proposal.kind == Repair <==> records.binding.Some?)
         && (records.binding.Some? ==> records.binding.value.proposalSha256 == place.sha256)
         && (records.approval.Some? ==> ApprovalMatches(proposal, records.approval.value))
         && LoadsPublication(records.branch, proposal, place) && LoadsPublication(records.result, proposal, place)
         && LoadedStateOk(status)
      then Some(status) else None
  }

  // ----- the invariant of the protocol

  /** Before the proposal there is at most its binding; once it is there, the status loads. */
  predicate Consistent(records: Records, place: Place) {
    if records.proposal.None? then
      && records.approval.None? && records.branch.None? && records.result.None?
      && (records.binding.Some? ==> records.binding.value.proposalSha256 == place.sha256)
    else Load(records, place).Some?
  }

  predicate Keeps<T(==)>(before: Option<T>, after: Option<T>) { before.Some? ==> after == before }

  /** What a status that loads says about the publication: every record is about the one proposal, which
      was approved while it was valid, in time order. */
  lemma {:induction false} StatusTellsOneStory(records: Records, place: Place)
    requires Load(records, place).Some?
    ensures
      var s := Load(records, place).value;
      && (s.proposal.kind == Repair ==> records.binding.Some? && records.binding.value.proposalSha256 == s.proposal.sha256)
      && (s.approval.Some? ==>
           && s.approval.value.proposalSha256 == s.proposal.sha256 && s.approval.value.kind == s.proposal.kind
           && s.proposal.createdAt <= s.approval.value.approvedAt < s.proposal.expiresAt)
      && (s.partial.Some? || s.result.Some? ==> s.approval.Some? && s.approval.value.proposalSha256 == s.proposal.sha256)
      && (s.partial.Some? ==> s.proposal.kind == Repair && s.approval.value.approvedAt <= s.partial.value.publishedAt)
      && (s.result.Some? ==> s.approval.value.approvedAt <= s.result.value.publishedAt)
      && (s.partial.Some? && s.result.Some? ==>
           && s.partial.value.approval == s.result.value.approval
           && s.partial.value.applicationSha256 == s.result.value.applicationSha256 && s.result.value.applicationSha256.Some?
           && s.partial.value.state == BranchCreated && s.result.value.state == RepairPublished
           && s.partial.value.publishedAt <= s.result.value.publishedAt)
  {
  }

  // ----- what a new record keeps

  /** An approval that matches keeps a loading status loading. */
  lemma {:induction false} ApprovalKeeps(records: Records, approval: Approval, place: Place)
    requires Load(records, place).Some? && records.approval.None? && ApprovalMatches(records.proposal.value, approval)
    ensures Load(records.(approval := Some(approval)), place).Some?
  {
  }

  /** The branch result does, under the saved approval and before any result. */
  lemma {:induction false} BranchKeeps(records: Records, branch: Publication, place: Place)
    requires Load(records, place).Some? && records.branch.None? && records.result.None?
    requires PublicationOk(branch) && branch.kind == Repair && branch.state == BranchCreated
    requires MatchesProposal(records.proposal.value, branch, place) && records.approval == Some(branch.approval)
    ensures Load(records.(branch := Some(branch)), place).Some?
  {
  }

  /** The final result does, under the saved approval and in agreement with the branch result. */
  lemma {:induction false} ResultKeeps(records: Records, result: Publication, place: Place)
    requires Load(records, place).Some? && records.result.None?
    requires PublicationOk(result) && result.kind == records.proposal.value.kind && result.state != BranchCreated
    requires MatchesProposal(records.proposal.value, result, place) && records.approval == Some(result.approval)
    requires records.branch.Some? ==> SameRecovery(records.branch.value, result)
    ensures Load(records.(result := Some(result)), place).Some?
  {
  }

  /** The proposal appears only with its binding, if it needs one. */
  lemma {:induction false} ProposalKeeps(records: Records, proposal: Proposal, place: Place)
    requires Consistent(records, place) && records.proposal.None?
    requires proposal.sha256 == place.sha256 && proposal.repository == place.repository
    requires proposal.kind == Repair <==> records.binding.Some?
    ensures Load(records.(proposal := Some(proposal)), place).Some?
  {
  }

  // ----- calls

  datatype Call =
    | SaveProposal(proposal: Proposal, sessionId: Option<string>)
    | SaveApproval(approval: Approval)
    | SaveBranch(branch: Publication)
    | SaveResult(result: Publication)

  predicate CallOk(call: Call) {
    match call
    case SaveBranch(branch) => PublicationOk(branch)
    case SaveResult(result) => PublicationOk(result)
    case _ => true
  }

  /** What a call that succeeded was to save is there. */
  predicate IsSaved(call: Call, records: Records) {
    match call
    case SaveProposal(proposal, _) => records.proposal == Some(proposal)
    case SaveApproval(approval) => records.approval == Some(approval)
    case SaveBranch(branch) => records.branch == Some(branch)
    case SaveResult(result) => records.result == Some(result)
  }
}

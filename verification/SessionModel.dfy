/** A repair session: its states, records, events, and the rules one event must follow. */
module SessionModel {
  import opened LineSplitting

  datatype State =
    | Created | Generating | Validating | Validated | Approved | Applying
    | Applied | Rejected | Cancelled | Expired | Failed

  predicate IsTerminal(s: State) { s in {Applied, Rejected, Cancelled, Expired, Failed} }

  /** `_TRANSITIONS` */
  function Transitions(s: State): set<State> {
    match s
    case Created => {Generating, Cancelled, Expired}
    case Generating => {Validating, Cancelled, Expired, Failed}
    case Validating => {Validated, Cancelled, Expired, Failed}
    case Validated => {Approved, Rejected, Cancelled, Expired}
    case Approved => {Applying, Rejected, Cancelled, Expired}
    case Applying => {Applied, Approved, Cancelled, Failed}
    case _ => {}
  }

  predicate CanTransition(previous: State, current: State) { current in Transitions(previous) }

  // ----- records; `details` stands for the fields no rule looks at

  /** `summary` stands for the counters and paths that the candidate's digest does not cover. */
  datatype Candidate = Candidate(candidateId: string, requestSha256: string, commitOid: string, details: string, summary: string)
  datatype Validation = Validation(validationSha256: string, candidateId: string, success: bool, details: string)
  datatype Approval = Approval(approvalSha256: string, candidateId: string, validationSha256: string, details: string)
  datatype Application = Application(applicationSha256: string, approvalSha256: string, commitOid: string, refName: string, details: string)
  datatype Decision = Decision(decisionSha256: string, state: State, candidateId: Option<string>, details: string)
  datatype Failure = Failure(details: string)

  /** `RepairSnapshot`; `scope` stands for the schema version, target count and allowed paths. */
  datatype Snapshot = Snapshot(
    sessionId: string, state: State, requestSha256: string, createdAt: nat, updatedAt: nat, scope: string,
    candidate: Option<Candidate>, validation: Option<Validation>, approval: Option<Approval>,
    application: Option<Application>, decision: Option<Decision>, failure: Option<Failure>,
    cleanupPending: bool)

  /** The lease of a validation container: an intent until the container's identity is bound. */
  datatype Lease = Lease(
    containerId: Option<string>, containerName: string, labels: seq<(string, string)>,
    sessionId: string, candidateId: string, runToken: string)

  datatype Kind =
    | SessionCreated | StartedGenerating | CandidateMade | StartedValidating
    | ValidationIntent | ValidationIntentAbandoned | ValidationRun | ValidationResult
    | CandidateValidated | CandidateApproved | StartedApplying | CandidateApplied
    | CandidateRejected | SessionCancelled | SessionExpired | SessionFailed
    | ApplicationConflict | Recovered | CleanupComplete | CleanupPending

  datatype Event = Event(
    sequence: nat, previous: string, kind: Kind, state: State, timestamp: nat,
    snapshot: Snapshot, preview: Option<string>, lease: Option<Lease>)

  /** The digests, each a function of what it covers. */
  datatype Digests = Digests(
    ofEvent: Event -> string,
    ofCandidate: (string, string, string) -> string,
    ofValidation: (string, bool, string) -> string,
    ofApproval: (string, string, string) -> string,
    ofApplication: (string, string, string, string) -> string,
    ofDecision: (State, Option<string>, string) -> string)

  // ----- snapshots

  const REF_PREFIX := "refs/repoguard/repairs/"

  predicate RecordsMatch(s: Snapshot) {
    && (s.validation.Some? ==> s.candidate.Some? && s.validation.value.candidateId == s.candidate.value.candidateId)
    && (s.approval.Some? ==>
         && s.candidate.Some? && s.validation.Some? && s.validation.value.success
         && s.approval.value.candidateId == s.candidate.value.candidateId
         && s.approval.value.validationSha256 == s.validation.value.validationSha256)
    && (s.application.Some? ==>
         && s.candidate.Some? && s.approval.Some?
         && s.application.value.approvalSha256 == s.approval.value.approvalSha256
         && s.application.value.commitOid == s.candidate.value.commitOid
         && s.application.value.refName == REF_PREFIX + s.candidate.value.candidateId)
    && (s.candidate.Some? ==> s.candidate.value.requestSha256 == s.requestSha256)
    && (s.decision.Some? && s.decision.value.candidateId.Some? ==>
         s.candidate.Some? && s.decision.value.candidateId.value == s.candidate.value.candidateId)
  }

  /** `_validate_snapshot_shape`, with the constructors' rules on decisions and timestamps. */
  predicate ShapeOk(s: Snapshot) {
    && s.createdAt <= s.updatedAt && RecordsMatch(s)
    && (s.candidate.Some? ==> s.state != Created)
    && (s.application.Some? ==> s.state == Applied)
    && (s.decision.Some? ==> s.decision.value.state == s.state && s.state in {Rejected, Cancelled, Expired})
    && (s.decision.Some? && s.decision.value.state == Rejected ==> s.decision.value.candidateId.Some?)
    && (s.failure.Some? ==> s.state == Failed)
    && (s.state in {Validating, Validated, Approved, Applying, Applied, Rejected} ==> s.candidate.Some?)
    && (s.state in {Validated, Approved, Applying, Applied, Rejected} ==> s.validation.Some? && s.validation.value.success)
    && (s.state in {Approved, Applying, Applied} ==> s.approval.Some?)
    && (s.state == Applied ==> s.application.Some?)
    && (s.state in {Rejected, Cancelled, Expired} ==> s.decision.Some?)
    && (s.state == Failed ==> s.failure.Some?)
    && (s.cleanupPending ==> IsTerminal(s.state))
  }

  /** `_snapshot_record_digests_are_valid` */
  predicate RecordDigestsOk(s: Snapshot, digests: Digests) {
    && (s.candidate.Some? ==>
         var c := s.candidate.value;
         c.candidateId == digests.ofCandidate(c.requestSha256, c.commitOid, c.details))
    && (s.validation.Some? ==>
         var v := s.validation.value;
         v.validationSha256 == digests.ofValidation(v.candidateId, v.success, v.details))
    && (s.approval.Some? ==>
         var a := s.approval.value;
         a.approvalSha256 == digests.ofApproval(a.candidateId, a.validationSha256, a.details))
    && (s.application.Some? ==>
         var a := s.application.value;
         a.applicationSha256 == digests.ofApplication(a.approvalSha256, a.commitOid, a.refName, a.details))
    && (s.decision.Some? ==>
         var d := s.decision.value;
         d.decisionSha256 == digests.ofDecision(d.state, d.candidateId, d.details))
  }

  // ----- the event tables

  /** `_EVENT_STATE_PAIRS` */
  predicate PairListed(kind: Kind, previous: State, current: State) {
    match kind
    case SessionCreated => false
    case StartedGenerating => (previous, current) == (Created, Generating)
    case CandidateMade => (previous, current) == (Generating, Generating)
    case StartedValidating => (previous, current) == (Generating, Validating)
    case ValidationIntent => (previous, current) == (Validating, Validating)
    case ValidationIntentAbandoned => (previous, current) == (Validating, Validating)
    case ValidationRun => previous == current && current in {Validating, Cancelled, Expired, Failed}
    case ValidationResult => (previous, current) == (Validating, Validating)
    case CandidateValidated => (previous, current) == (Validating, Validated)
    case CandidateApproved => (previous, current) == (Validated, Approved)
    case StartedApplying => (previous, current) == (Approved, Applying)
    case CandidateApplied => (previous, current) == (Applying, Applied)
    case CandidateRejected => previous in {Validated, Approved} && current == Rejected
    case SessionCancelled => previous in {Created, Generating, Validating, Validated, Approved} && current == Cancelled
    case SessionExpired => previous in {Created, Generating, Validating, Validated, Approved} && current == Expired
    case SessionFailed => previous in {Generating, Validating} && current == Failed
    case ApplicationConflict => (previous, current) == (Applying, Approved)
    case Recovered => (previous, current) == (Applying, Approved)
    case CleanupComplete => previous == current && IsTerminal(current)
    case CleanupPending => previous == current && IsTerminal(current)
  }

  /** `_event_state_pair_is_valid` */
  predicate PairOk(kind: Kind, previous: State, current: State) {
    PairListed(kind, previous, current) && (previous == current || CanTransition(previous, current))
  }

  /** Which of the mutable snapshot fields differ. */
  datatype Changes = Changes(
    candidate: bool, validation: bool, approval: bool, application: bool, decision: bool, failure: bool, cleanupPending: bool)

  const UNCHANGED := Changes(false, false, false, false, false, false, false)

  function ChangesOf(previous: Snapshot, current: Snapshot): Changes {
    Changes(previous.candidate != current.candidate, previous.validation != current.validation,
            previous.approval != current.approval, previous.application != current.application,
            previous.decision != current.decision, previous.failure != current.failure,
            previous.cleanupPending != current.cleanupPending)
  }

  /** `_EVENT_SNAPSHOT_CHANGES`, for the kinds it lists. */
  function ExpectedChanges(kind: Kind): Option<Changes> {
    match kind
    case SessionCreated => None
    case CleanupPending => None
    case CandidateMade => Some(UNCHANGED.(candidate := true))
    case ValidationResult => Some(UNCHANGED.(validation := true))
    case CandidateApproved => Some(UNCHANGED.(approval := true))
    case CandidateApplied => Some(UNCHANGED.(application := true, cleanupPending := true))
    case CandidateRejected => Some(UNCHANGED.(decision := true, cleanupPending := true))
    case SessionCancelled => Some(UNCHANGED.(decision := true, cleanupPending := true))
    case SessionExpired => Some(UNCHANGED.(decision := true, cleanupPending := true))
    case SessionFailed => Some(UNCHANGED.(failure := true, cleanupPending := true))
    case CleanupComplete => Some(UNCHANGED.(cleanupPending := true))
    case _ => Some(UNCHANGED)
  }

  predicate SameIdentity(a: Snapshot, b: Snapshot) {
    && a.sessionId == b.sessionId && a.requestSha256 == b.requestSha256
    && a.createdAt == b.createdAt && a.scope == b.scope
  }

  /** `_snapshot_update_is_valid` */
  predicate SnapshotUpdateOk(kind: Kind, previous: Snapshot, current: Snapshot) {
    && SameIdentity(previous, current)
    && var changes := ChangesOf(previous, current);
       if kind == CleanupPending then
         changes in {UNCHANGED, UNCHANGED.(cleanupPending := true)} && current.cleanupPending
       else
         && ExpectedChanges(kind) == Some(changes)
         && match kind
            case CandidateMade => previous.candidate.None? && current.candidate.Some?
            case ValidationResult => previous.validation.None? && current.validation.Some?
            case CandidateApproved => previous.approval.None? && current.approval.Some?
            case CandidateApplied => previous.application.None? && current.application.Some? && current.cleanupPending
            case CandidateRejected => previous.decision.None? && current.decision.Some? && current.cleanupPending
            case SessionCancelled => previous.decision.None? && current.decision.Some? && current.cleanupPending
            case SessionExpired => previous.decision.None? && current.decision.Some? && current.cleanupPending
            case SessionFailed => previous.failure.None? && current.failure.Some? && current.cleanupPending
            case CleanupComplete => previous.cleanupPending && !current.cleanupPending
            case _ => true
  }

  // ----- the lease

  predicate IsCarryState(s: State) { s in {Validating, Cancelled, Expired, Failed} }

  /** `_validation_run_matches_snapshot` */
  predicate LeaseMatches(lease: Lease, s: Snapshot) {
    lease.sessionId == s.sessionId && s.candidate.Some? && lease.candidateId == s.candidate.value.candidateId
  }

  /** `_same_validation_intent`: all but the container's identity. */
  predicate SameIntent(a: Lease, b: Lease) { a.(containerId := None) == b.(containerId := None) }

  predicate IsBound(lease: Option<Lease>) { lease.Some? && lease.value.containerId.Some? }
  predicate IsIntent(lease: Option<Lease>) { lease.Some? && lease.value.containerId.None? }

  /** `_validation_run_update_is_valid` */
  predicate LeaseUpdateOk(kind: Kind, before: Snapshot, after: Snapshot, previous: Option<Lease>, current: Option<Lease>) {
    && (previous.Some? ==> LeaseMatches(previous.value, before))
    && (current.Some? ==> LeaseMatches(current.value, after))
    && match kind
       case ValidationIntent => previous.None? && IsIntent(current) && after.validation.None?
       case ValidationRun =>
         IsIntent(previous) && IsBound(current) && SameIntent(previous.value, current.value) && after.validation.None?
       case ValidationIntentAbandoned =>
         IsIntent(previous) && current.None? && after.state == Validating && after.validation.None?
       case ValidationResult => IsBound(previous) && current == previous && after.validation.Some?
       case _ =>
         if previous.None? then current.None?
         else if current == previous then kind != CleanupComplete && IsCarryState(after.state)
         else current.None? && kind in {CandidateValidated, SessionFailed, CleanupPending, CleanupComplete}
  }

  /** `_candidate_preview_update_is_valid` */
  predicate PreviewUpdateOk(kind: Kind, before: Snapshot, after: Snapshot, previous: Option<string>, current: Option<string>) {
    if kind == CandidateMade then
      before.candidate.None? && after.candidate.Some? && previous.None? && current.Some?
    else
      after.candidate == before.candidate && current == previous && (after.candidate.None? <==> current.None?)
  }

  // ----- the tables

  /** Events realise every transition of the state table but two: nothing cancels a session
      or fails it while it is applying. */
  lemma TransitionsRealised(previous: State, current: State)
    ensures (exists kind :: PairOk(kind, previous, current) && previous != current) <==>
      CanTransition(previous, current) && !(previous == Applying && current in {Cancelled, Failed})
  {
    if CanTransition(previous, current) && !(previous == Applying && current in {Cancelled, Failed}) {
      var kind := match current
        case Generating => StartedGenerating
        case Validating => StartedValidating
        case Validated => CandidateValidated
        case Approved => if previous == Validated then CandidateApproved else Recovered
        case Applying => StartedApplying
        case Applied => CandidateApplied
        case Rejected => CandidateRejected
        case Cancelled => SessionCancelled
        case Expired => SessionExpired
        case _ => SessionFailed;
      assert PairOk(kind, previous, current);
    }
  }
}

/** A session that is applied exists, whatever the digests: the history theorems are about something. */
module SessionReach {
  import opened LineSplitting
  import opened SessionModel
  import opened SessionLog

  /** What a log stands for, but for its digests. */
  datatype Point = Point(snapshot: Snapshot, preview: Option<string>, lease: Option<Lease>)

  ghost predicate IsAt(log: seq<Event>, point: Point, session: Session) {
    && log != [] && Replay(log, session) == Some(LoadedOf(Last(log), session)) && Last(log).sequence == |log| - 1
    && Last(log).snapshot == point.snapshot && Last(log).preview == point.preview && Last(log).lease == point.lease
  }

  /** The rules of one event, without the chain. */
  predicate Allowed(kind: Kind, before: Point, after: Point, session: Session) {
    && PairOk(kind, before.snapshot.state, after.snapshot.state)
    && before.snapshot.updatedAt <= after.snapshot.updatedAt
    && LeaseUpdateOk(kind, before.snapshot, after.snapshot, before.lease, after.lease)
    && PreviewUpdateOk(kind, before.snapshot, after.snapshot, before.preview, after.preview)
    && SnapshotUpdateOk(kind, before.snapshot, after.snapshot)
    && ShapeOk(after.snapshot) && RecordDigestsOk(after.snapshot, session.digests) && after.snapshot.sessionId == session.id
  }

  /** One allowed event more. */
  lemma {:induction false} Grow(log: seq<Event>, before: Point, kind: Kind, after: Point, session: Session) returns (more: seq<Event>)
    requires IsAt(log, before, session) && Allowed(kind, before, after, session)
    ensures IsAt(more, after, session)
  {
    var s := after.snapshot;
    var event := Event(|log|, session.digests.ofEvent(Last(log)), kind, s.state, s.updatedAt, s, after.preview, after.lease);
    more := log + [event];
    ReplayMore(log, event, session);
  }

  function Fresh(session: Session): Snapshot {
    Snapshot(session.id, Created, "", 0, 0, "", None, None, None, None, None, None, false)
  }

  lemma {:induction false} Start(session: Session) returns (log: seq<Event>)
    ensures IsAt(log, Point(Fresh(session), None, None), session)
  {
    log := [Event(0, ZeroDigest(), SessionCreated, Created, 0, Fresh(session), None, None)];
  }

  // ----- records whose digests match

  function SomeCandidate(d: Digests): Candidate { Candidate(d.ofCandidate("", "", ""), "", "", "", "") }

  function SomeValidation(d: Digests): Validation {
    var id := SomeCandidate(d).candidateId;
    Validation(d.ofValidation(id, true, ""), id, true, "")
  }

  function SomeApproval(d: Digests): Approval {
    var v := SomeValidation(d);
    Approval(d.ofApproval(v.candidateId, v.validationSha256, ""), v.candidateId, v.validationSha256, "")
  }

  function SomeApplication(d: Digests): Application {
    var (a, ref) := (SomeApproval(d).approvalSha256, REF_PREFIX + SomeCandidate(d).candidateId);
    Application(d.ofApplication(a, "", ref, ""), a, "", ref, "")
  }

  // ----- the way to an applied session, snapshot by snapshot

  function Generated(session: Session): Snapshot { Fresh(session).(state := Generating) }
  function Offered(session: Session): Snapshot { Generated(session).(candidate := Some(SomeCandidate(session.digests))) }
  function Running(session: Session): Snapshot { Offered(session).(state := Validating) }
  function Checked(session: Session): Snapshot { Running(session).(validation := Some(SomeValidation(session.digests))) }
  function Good(session: Session): Snapshot { Checked(session).(state := Validated) }
  function Agreed(session: Session): Snapshot { Good(session).(state := Approved, approval := Some(SomeApproval(session.digests))) }
  function Started(session: Session): Snapshot { Agreed(session).(state := Applying) }
  function Done(session: Session): Snapshot {
    Started(session).(state := Applied, application := Some(SomeApplication(session.digests)), cleanupPending := true)
  }

  function At(s: Snapshot, lease: Option<Lease>): Point { Point(s, if s.candidate.None? then None else Some(""), lease) }

  function IntentOf(session: Session): Lease {
    Lease(None, "", [], session.id, SomeCandidate(session.digests).candidateId, "")
  }

  function RunOf(session: Session): Lease { IntentOf(session).(containerId := Some("")) }

  lemma {:induction false} MayGenerate(session: Session)
    ensures Allowed(StartedGenerating, At(Fresh(session), None), At(Generated(session), None), session)
  {
  }

  lemma {:induction false} MayPropose(session: Session)
    ensures Allowed(CandidateMade, At(Generated(session), None), At(Offered(session), None), session)
  {
  }

  lemma {:induction false} MayValidate(session: Session)
    ensures Allowed(StartedValidating, At(Offered(session), None), At(Running(session), None), session)
  {
  }

  lemma {:induction false} MayIntend(session: Session)
    ensures Allowed(ValidationIntent, At(Running(session), None), At(Running(session), Some(IntentOf(session))), session)
  {
  }

  lemma {:induction false} MayRun(session: Session)
    ensures Allowed(ValidationRun, At(Running(session), Some(IntentOf(session))), At(Running(session), Some(RunOf(session))), session)
  {
  }

  lemma {:induction false} MayRecord(session: Session)
    ensures Allowed(ValidationResult, At(Running(session), Some(RunOf(session))), At(Checked(session), Some(RunOf(session))), session)
  {
  }

  lemma {:induction false} MayPass(session: Session)
    ensures Allowed(CandidateValidated, At(Checked(session), Some(RunOf(session))), At(Good(session), None), session)
  {
  }

  lemma {:induction false} MayApprove(session: Session)
    ensures Allowed(CandidateApproved, At(Good(session), None), At(Agreed(session), None), session)
  {
  }

  lemma {:induction false} MayStart(session: Session)
    ensures Allowed(StartedApplying, At(Agreed(session), None), At(Started(session), None), session)
  {
  }

  lemma {:induction false} MayApply(session: Session)
    ensures Allowed(CandidateApplied, At(Started(session), None), At(Done(session), None), session)
  {
  }

  lemma {:induction false} MayClean(session: Session)
    ensures Allowed(CleanupComplete, At(Done(session), None), At(Done(session).(cleanupPending := false), None), session)
  {
  }

  /** Whatever the digest functions are, some loadable log ends applied and cleaned up. */
  lemma {:induction false} AppliedIsReachable(session: Session) returns (log: seq<Event>)
    ensures log != [] && IsLoadable(log, session) && Last(log).snapshot.state == Applied && !Last(log).snapshot.cleanupPending
  {
    log := Start(session);
    MayGenerate(session);
    log := Grow(log, At(Fresh(session), None), StartedGenerating, At(Generated(session), None), session);
    MayPropose(session);
    log := Grow(log, At(Generated(session), None), CandidateMade, At(Offered(session), None), session);
    MayValidate(session);
    log := Grow(log, At(Offered(session), None), StartedValidating, At(Running(session), None), session);
    MayIntend(session);
    log := Grow(log, At(Running(session), None), ValidationIntent, At(Running(session), Some(IntentOf(session))), session);
    MayRun(session);
    log := Grow(log, At(Running(session), Some(IntentOf(session))), ValidationRun, At(Running(session), Some(RunOf(session))), session);
    MayRecord(session);
    log := Grow(log, At(Running(session), Some(RunOf(session))), ValidationResult, At(Checked(session), Some(RunOf(session))), session);
    MayPass(session);
    log := Grow(log, At(Checked(session), Some(RunOf(session))), CandidateValidated, At(Good(session), None), session);
    log := Conclude(log, session);
  }

  lemma {:induction false} Conclude(log: seq<Event>, session: Session) returns (more: seq<Event>)
    requires IsAt(log, At(Good(session), None), session)
    ensures IsAt(more, At(Done(session).(cleanupPending := false), None), session)
  {
    MayApprove(session);
    more := Grow(log, At(Good(session), None), CandidateApproved, At(Agreed(session), None), session);
    MayStart(session);
    more := Grow(more, At(Agreed(session), None), StartedApplying, At(Started(session), None), session);
    MayApply(session);
    more := Grow(more, At(Started(session), None), CandidateApplied, At(Done(session), None), session);
    MayClean(session);
    more := Grow(more, At(Done(session), None), CleanupComplete, At(Done(session).(cleanupPending := false), None), session);
  }
}

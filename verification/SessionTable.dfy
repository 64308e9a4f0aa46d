/** The events a session may record, state by state and lease by lease: each of them comes next after
    some loadable log, and nothing else ever does. */
module SessionTable {
  import opened LineSplitting
  import opened SessionModel
  import opened SessionLog
  import opened SessionHistory
  import opened SessionReach

  /** No lease, the intent of a container, or a container bound to it. */
  datatype Hold = Nothing | Intended | Bound

  function HoldOf(lease: Option<Lease>): Hold {
    if lease.None? then Nothing else if lease.value.containerId.None? then Intended else Bound
  }

  /** Where an event of a kind leads from a state with a lease. */
  datatype Entry = Entry(kind: Kind, previous: State, current: State, before: Hold, after: Hold)

  const TERMINAL := {Applied, Rejected, Cancelled, Expired, Failed}
  const CARRYING := {Cancelled, Expired, Failed}

  /** The table of events, with what becomes of the lease. */
  predicate IsListed(e: Entry) {
    var states, holds := (e.previous, e.current), (e.before, e.after);
    match e.kind
    case SessionCreated => false
    case StartedGenerating => states == (Created, Generating) && holds == (Nothing, Nothing)
    case CandidateMade => states == (Generating, Generating) && holds == (Nothing, Nothing)
    case StartedValidating => states == (Generating, Validating) && holds == (Nothing, Nothing)
    case ValidationIntent => states == (Validating, Validating) && holds == (Nothing, Intended)
    case ValidationIntentAbandoned => states == (Validating, Validating) && holds == (Intended, Nothing)
    case ValidationRun => e.previous == e.current && (e.current == Validating || e.current in CARRYING) && holds == (Intended, Bound)
    case ValidationResult => states == (Validating, Validating) && holds == (Bound, Bound)
    case CandidateValidated => states == (Validating, Validated) && holds == (Bound, Nothing)
    case CandidateApproved => states == (Validated, Approved) && holds == (Nothing, Nothing)
    case StartedApplying => states == (Approved, Applying) && holds == (Nothing, Nothing)
    case CandidateApplied => states == (Applying, Applied) && holds == (Nothing, Nothing)
    case CandidateRejected => states in {(Validated, Rejected), (Approved, Rejected)} && holds == (Nothing, Nothing)
    case SessionCancelled => IsEnding(e, Cancelled)
    case SessionExpired => IsEnding(e, Expired)
    case SessionFailed =>
      && e.current == Failed
      && ((e.previous == Generating && holds == (Nothing, Nothing)) || (e.previous == Validating && (e.after == e.before || e.after == Nothing)))
    case ApplicationConflict => states == (Applying, Approved) && holds == (Nothing, Nothing)
    case Recovered => states == (Applying, Approved) && holds == (Nothing, Nothing)
    case CleanupComplete => IsCleanup(e) && e.after == Nothing
    case CleanupPending => IsCleanup(e) && (e.after == e.before || e.after == Nothing)
  }

  /** A session is cancelled or expires before it applies; while validating, its lease is carried. */
  predicate IsEnding(e: Entry, ending: State) {
    && e.current == ending && e.after == e.before
    && (e.previous == Validating || (e.previous in {Created, Generating, Validated, Approved} && e.before == Nothing))
  }

  /** A session that has ended is cleaned up; three endings may still hold a lease. */
  predicate IsCleanup(e: Entry) {
    e.previous == e.current && e.current in TERMINAL && (e.before == Nothing || e.current in CARRYING)
  }

  /** The event of the entry comes next after some loadable log. */
  ghost predicate IsRealised(e: Entry, session: Session) { exists log, event :: Realises(log, event, e, session) }

  ghost predicate Realises(log: seq<Event>, event: Event, e: Entry, session: Session) {
    IsLoadable(log, session) && IsLoadable(log + [event], session) && EntryOf(Last(log), event) == e
  }

  function EntryOf(before: Event, event: Event): Entry {
    Entry(event.kind, before.snapshot.state, event.snapshot.state, HoldOf(before.lease), HoldOf(event.lease))
  }

  // ----- nothing else

  lemma {:induction false} FollowsIsListed(bound: Option<Lease>, before: Loaded, event: Event)
    requires Follows(before, event) && ShapeOk(before.snapshot) && ShapeOk(event.snapshot) && LeaseFits(bound, before.snapshot, before.lease)
    ensures IsListed(Entry(event.kind, before.snapshot.state, event.snapshot.state, HoldOf(before.lease), HoldOf(event.lease)))
  {
  }

  lemma {:induction false} RealisedIsListed(log: seq<Event>, event: Event, e: Entry, session: Session)
    requires Realises(log, event, e, session)
    ensures IsListed(e)
  {
    var more, n := log + [event], |log|;
    assert more[n] == event && more[n - 1] == Last(log);
    StepAt(more, n, session);
    StepAt(more, n - 1, session);
    LeaseAlwaysFits(more, n - 1, session);
    FollowsIsListed(BoundAt(more, n - 1), LoadedOf(more[n - 1], session), event);
  }

  // ----- every entry

  ghost predicate IsReached(point: Point, session: Session) { exists log :: IsAt(log, point, session) }

  lemma {:induction false} Reach(before: Point, kind: Kind, after: Point, session: Session)
    requires IsReached(before, session) && Allowed(kind, before, after, session)
    ensures IsReached(after, session)
    ensures IsRealised(Entry(kind, before.snapshot.state, after.snapshot.state, HoldOf(before.lease), HoldOf(after.lease)), session)
  {
    var log :| IsAt(log, before, session);
    var more := Grow(log, before, kind, after, session);
    var event := NextEvent(log, kind, after, session);
    GrowIsNext(log, before, kind, after, session);
    assert Realises(log, event, EntryOf(Last(log), event), session);
  }

  function NextEvent(log: seq<Event>, kind: Kind, after: Point, session: Session): Event
    requires log != []
  {
    var s := after.snapshot;
    Event(|log|, session.digests.ofEvent(Last(log)), kind, s.state, s.updatedAt, s, after.preview, after.lease)
  }

  lemma {:induction false} GrowIsNext(log: seq<Event>, before: Point, kind: Kind, after: Point, session: Session)
    requires IsAt(log, before, session) && Allowed(kind, before, after, session)
    ensures IsLoadable(log + [NextEvent(log, kind, after, session)], session)
  {
    ReplayMore(log, NextEvent(log, kind, after, session), session);
  }

  // ----- the states on the way

  function Leased(hold: Hold, session: Session): Option<Lease> {
    match hold case Nothing => None case Intended => Some(IntentOf(session)) case Bound => Some(RunOf(session))
  }

  lemma {:induction false} StartIsReached(session: Session)
    ensures IsReached(At(Fresh(session), None), session)
  {
    var log := Start(session);
  }

  lemma {:induction false} OfferIsReached(session: Session)
    ensures IsReached(At(Generated(session), None), session) && IsReached(At(Offered(session), None), session)
    ensures IsRealised(Entry(StartedGenerating, Created, Generating, Nothing, Nothing), session)
    ensures IsRealised(Entry(CandidateMade, Generating, Generating, Nothing, Nothing), session)
  {
    StartIsReached(session);
    MayGenerate(session);
    Reach(At(Fresh(session), None), StartedGenerating, At(Generated(session), None), session);
    MayPropose(session);
    Reach(At(Generated(session), None), CandidateMade, At(Offered(session), None), session);
  }

  lemma {:induction false} MayAbandon(session: Session)
    ensures Allowed(ValidationIntentAbandoned, At(Running(session), Some(IntentOf(session))), At(Running(session), None), session)
  {
  }

  lemma {:induction false} RunningIsReached(hold: Hold, session: Session)
    ensures IsReached(At(Running(session), Leased(hold, session)), session)
    ensures IsRealised(Entry(StartedValidating, Generating, Validating, Nothing, Nothing), session)
    ensures IsRealised(Entry(ValidationIntent, Validating, Validating, Nothing, Intended), session)
    ensures IsRealised(Entry(ValidationIntentAbandoned, Validating, Validating, Intended, Nothing), session)
    ensures IsRealised(Entry(ValidationRun, Validating, Validating, Intended, Bound), session)
  {
    OfferIsReached(session);
    MayValidate(session);
    Reach(At(Offered(session), None), StartedValidating, At(Running(session), None), session);
    MayIntend(session);
    Reach(At(Running(session), None), ValidationIntent, At(Running(session), Some(IntentOf(session))), session);
    MayAbandon(session);
    Reach(At(Running(session), Some(IntentOf(session))), ValidationIntentAbandoned, At(Running(session), None), session);
    MayRun(session);
    Reach(At(Running(session), Some(IntentOf(session))), ValidationRun, At(Running(session), Some(RunOf(session))), session);
  }

  lemma {:induction false} GoodIsReached(session: Session)
    ensures IsReached(At(Good(session), None), session)
    ensures IsRealised(Entry(ValidationResult, Validating, Validating, Bound, Bound), session)
    ensures IsRealised(Entry(CandidateValidated, Validating, Validated, Bound, Nothing), session)
  {
    RunningIsReached(Bound, session);
    MayRecord(session);
    Reach(At(Running(session), Some(RunOf(session))), ValidationResult, At(Checked(session), Some(RunOf(session))), session);
    MayPass(session);
    Reach(At(Checked(session), Some(RunOf(session))), CandidateValidated, At(Good(session), None), session);
  }

  lemma {:induction false} MayReturn(kind: Kind, session: Session)
    requires kind in {ApplicationConflict, Recovered}
    ensures Allowed(kind, At(Started(session), None), At(Agreed(session), None), session)
  {
  }

  lemma {:induction false} DoneIsReached(session: Session)
    ensures IsReached(At(Agreed(session), None), session) && IsReached(At(Started(session), None), session)
    ensures IsReached(At(Done(session), None), session)
    ensures IsRealised(Entry(CandidateApproved, Validated, Approved, Nothing, Nothing), session)
    ensures IsRealised(Entry(StartedApplying, Approved, Applying, Nothing, Nothing), session)
    ensures IsRealised(Entry(CandidateApplied, Applying, Applied, Nothing, Nothing), session)
  {
    GoodIsReached(session);
    MayApprove(session);
    Reach(At(Good(session), None), CandidateApproved, At(Agreed(session), None), session);
    MayStart(session);
    Reach(At(Agreed(session), None), StartedApplying, At(Started(session), None), session);
    MayApply(session);
    Reach(At(Started(session), None), CandidateApplied, At(Done(session), None), session);
  }

  lemma {:induction false} ReturnsAreRealised(session: Session)
    ensures IsRealised(Entry(ApplicationConflict, Applying, Approved, Nothing, Nothing), session)
    ensures IsRealised(Entry(Recovered, Applying, Approved, Nothing, Nothing), session)
  {
    DoneIsReached(session);
    MayReturn(ApplicationConflict, session);
    MayReturn(Recovered, session);
    Reach(At(Started(session), None), ApplicationConflict, At(Agreed(session), None), session);
    Reach(At(Started(session), None), Recovered, At(Agreed(session), None), session);
  }

  // ----- what is known wherever a log may end

  predicate IsSound(point: Point, session: Session) {
    && ShapeOk(point.snapshot) && RecordDigestsOk(point.snapshot, session.digests) && point.snapshot.sessionId == session.id
    && (point.preview.Some? <==> point.snapshot.candidate.Some?)
    && (point.lease.Some? ==> IsCarryState(point.snapshot.state) && LeaseMatches(point.lease.value, point.snapshot))
    && (IsIntent(point.lease) ==> point.snapshot.validation.None?)
  }

  lemma {:induction false} ReachedIsSound(point: Point, session: Session)
    requires IsReached(point, session)
    ensures IsSound(point, session)
  {
    var log :| IsAt(log, point, session);
    var n := |log| - 1;
    StepAt(log, n, session);
    AlwaysFits(log, n, session);
    LeaseAlwaysFits(log, n, session);
    LastDigests(log, session);
  }

  lemma {:induction false} LastDigests(log: seq<Event>, session: Session)
    requires IsLoadable(log, session)
    ensures RecordDigestsOk(Last(log).snapshot, session.digests) && Last(log).snapshot.sessionId == session.id
  {
  }

  // ----- the endings

  predicate IsIn(point: Point, state: State, hold: Hold) { point.snapshot.state == state && HoldOf(point.lease) == hold }

  lemma {:induction false} LiveIsReached(state: State, hold: Hold, session: Session) returns (point: Point)
    requires state in {Created, Generating, Validating, Validated, Approved} && (state == Validating || hold == Nothing)
    ensures IsReached(point, session) && IsIn(point, state, hold)
  {
    match state
    case Created =>
      StartIsReached(session);
      point := At(Fresh(session), None);
    case Generating =>
      OfferIsReached(session);
      point := At(Generated(session), None);
    case Validating =>
      RunningIsReached(hold, session);
      point := At(Running(session), Leased(hold, session));
    case Validated =>
      GoodIsReached(session);
      point := At(Good(session), None);
    case _ =>
      DoneIsReached(session);
      point := At(Agreed(session), None);
  }

  /** It ends by a decision or by a failure. */
  function Ended(s: Snapshot, ending: State, session: Session): Snapshot {
    var id := if s.candidate.Some? then Some(s.candidate.value.candidateId) else None;
    if ending == Failed then s.(state := Failed, failure := Some(Failure("")), cleanupPending := true)
    else s.(state := ending, decision := Some(Decision(session.digests.ofDecision(ending, id, ""), ending, id, "")), cleanupPending := true)
  }

  function EndingKind(ending: State): Kind {
    if ending == Cancelled then SessionCancelled
    else if ending == Expired then SessionExpired
    else if ending == Rejected then CandidateRejected
    else SessionFailed
  }

  /** The endings that the table lists, with what becomes of the lease. */
  predicate CanEnd(state: State, ending: State, before: Hold, after: Hold) {
    && state in {Created, Generating, Validating, Validated, Approved} && ending in {Cancelled, Expired, Rejected, Failed}
    && IsListed(Entry(EndingKind(ending), state, ending, before, after))
  }

  predicate EndsFrom(state: State, ending: State) {
    && state in {Created, Generating, Validating, Validated, Approved} && ending in {Cancelled, Expired, Rejected, Failed}
    && PairOk(EndingKind(ending), state, ending)
  }

  lemma {:induction false} EndedIsShaped(s: Snapshot, ending: State, session: Session)
    requires ShapeOk(s) && EndsFrom(s.state, ending)
    ensures ShapeOk(Ended(s, ending, session))
  {
  }

  lemma {:induction false} EndedIsUpdate(s: Snapshot, ending: State, session: Session)
    requires ShapeOk(s) && RecordDigestsOk(s, session.digests) && EndsFrom(s.state, ending)
    ensures SnapshotUpdateOk(EndingKind(ending), s, Ended(s, ending, session)) && RecordDigestsOk(Ended(s, ending, session), session.digests)
  {
  }

  lemma {:induction false} EndedLease(point: Point, ending: State, after: Option<Lease>, session: Session)
    requires IsSound(point, session) && CanEnd(point.snapshot.state, ending, HoldOf(point.lease), HoldOf(after))
    requires after in {point.lease, None}
    ensures EndsFrom(point.snapshot.state, ending)
    ensures LeaseUpdateOk(EndingKind(ending), point.snapshot, Ended(point.snapshot, ending, session), point.lease, after)
  {
  }

  lemma {:induction false} EndedPreview(point: Point, ending: State, session: Session)
    requires IsSound(point, session) && EndsFrom(point.snapshot.state, ending)
    ensures PreviewUpdateOk(EndingKind(ending), point.snapshot, Ended(point.snapshot, ending, session), point.preview, point.preview)
  {
  }

  /** Wherever a log ends in such a state, the session may end. */
  lemma {:induction false} MayEnd(point: Point, ending: State, after: Option<Lease>, session: Session)
    requires IsSound(point, session) && CanEnd(point.snapshot.state, ending, HoldOf(point.lease), HoldOf(after))
    requires after in {point.lease, None}
    ensures Allowed(EndingKind(ending), point, Point(Ended(point.snapshot, ending, session), point.preview, after), session)
  {
    EndedLease(point, ending, after, session);
    EndedIsShaped(point.snapshot, ending, session);
    EndedIsUpdate(point.snapshot, ending, session);
    EndedPreview(point, ending, session);
  }

  lemma {:induction false} EndingIsRealised(state: State, ending: State, before: Hold, after: Hold, session: Session) returns (over: Point)
    requires CanEnd(state, ending, before, after)
    ensures IsRealised(Entry(EndingKind(ending), state, ending, before, after), session)
    ensures IsReached(over, session) && IsIn(over, ending, after) && over.snapshot.cleanupPending
  {
    var point := LiveIsReached(state, before, session);
    var lease := if after == before then point.lease else None;
    over := Point(Ended(point.snapshot, ending, session), point.preview, lease);
    ReachedIsSound(point, session);
    MayEnd(point, ending, lease, session);
    Reach(point, EndingKind(ending), over, session);
  }

  // ----- after the end

  lemma {:induction false} AppliedIsReached(session: Session) returns (point: Point)
    ensures IsReached(point, session) && IsIn(point, Applied, Nothing) && point.snapshot.cleanupPending
  {
    DoneIsReached(session);
    point := At(Done(session), None);
  }

  lemma {:induction false} OverIsReached(ending: State, hold: Hold, session: Session) returns (point: Point)
    requires ending in TERMINAL && (hold == Nothing || ending in CARRYING)
    ensures IsReached(point, session) && IsIn(point, ending, hold) && point.snapshot.cleanupPending
  {
    if ending == Applied {
      point := AppliedIsReached(session);
    } else if ending == Rejected {
      point := EndingIsRealised(Validated, Rejected, Nothing, Nothing, session);
    } else {
      point := EndingIsRealised(Validating, ending, hold, hold, session);
    }
  }

  /** Wherever a log ends with a session that is over and owes its cleanup, its completion may be recorded. */
  lemma {:induction false} MayComplete(point: Point, session: Session)
    requires IsSound(point, session) && IsTerminal(point.snapshot.state) && point.snapshot.cleanupPending
    ensures Allowed(CleanupComplete, point, Point(point.snapshot.(cleanupPending := false), point.preview, None), session)
  {
  }

  /** So may a cleanup that is still to be done, with the lease or without. */
  lemma {:induction false} MayPend(point: Point, session: Session)
    requires IsSound(point, session) && IsTerminal(point.snapshot.state) && point.snapshot.cleanupPending
    ensures Allowed(CleanupPending, point, point, session) && Allowed(CleanupPending, point, point.(lease := None), session)
  {
  }

  lemma {:induction false} CleanupIsRealised(e: Entry, session: Session)
    requires e.kind in {CleanupComplete, CleanupPending} && IsListed(e)
    ensures IsRealised(e, session)
  {
    var over := OverIsReached(e.current, e.before, session);
    ReachedIsSound(over, session);
    MayComplete(over, session);
    MayPend(over, session);
    if e.kind == CleanupComplete {
      Reach(over, CleanupComplete, Point(over.snapshot.(cleanupPending := false), over.preview, None), session);
    } else if e.after == e.before {
      Reach(over, CleanupPending, over, session);
    } else {
      Reach(over, CleanupPending, over.(lease := None), session);
    }
  }

  /** Wherever a log ends with an intent, its container may be bound, in an ended session too. */
  lemma {:induction false} MayBind(point: Point, session: Session)
    requires IsSound(point, session) && IsIntent(point.lease)
    ensures Allowed(ValidationRun, point, point.(lease := Some(point.lease.value.(containerId := Some("")))), session)
  {
  }

  lemma {:induction false} LateRunIsRealised(ending: State, session: Session)
    requires ending in CARRYING
    ensures IsRealised(Entry(ValidationRun, ending, ending, Intended, Bound), session)
  {
    var over := OverIsReached(ending, Intended, session);
    ReachedIsSound(over, session);
    MayBind(over, session);
    Reach(over, ValidationRun, over.(lease := Some(over.lease.value.(containerId := Some("")))), session);
  }

  lemma {:induction false} ListedIsRealised(e: Entry, session: Session)
    requires IsListed(e)
    ensures IsRealised(e, session)
  {
    match e.kind
    case StartedGenerating => OfferIsReached(session);
    case CandidateMade => OfferIsReached(session);
    case StartedValidating => RunningIsReached(Nothing, session);
    case ValidationIntent => RunningIsReached(Nothing, session);
    case ValidationIntentAbandoned => RunningIsReached(Nothing, session);
    case ValidationRun =>
      if e.current == Validating {
        RunningIsReached(Nothing, session);
      } else {
        LateRunIsRealised(e.current, session);
      }
    case ValidationResult => GoodIsReached(session);
    case CandidateValidated => GoodIsReached(session);
    case CandidateApproved => DoneIsReached(session);
    case StartedApplying => DoneIsReached(session);
    case CandidateApplied => DoneIsReached(session);
    case ApplicationConflict => ReturnsAreRealised(session);
    case Recovered => ReturnsAreRealised(session);
    case CleanupComplete => CleanupIsRealised(e, session);
    case CleanupPending => CleanupIsRealised(e, session);
    case _ => var over := EndingIsRealised(e.previous, e.current, e.before, e.after, session);
  }

  /** Whatever the digests, the events that may come next after a loadable log are exactly those of the
      table: kind, states and lease. */
  lemma {:induction false} RealisedExactly(e: Entry, session: Session)
    ensures IsRealised(e, session) <==> IsListed(e)
  {
    if IsRealised(e, session) {
      var log, event :| Realises(log, event, e, session);
      RealisedIsListed(log, event, e, session);
    }
    if IsListed(e) {
      ListedIsRealised(e, session);
    }
  }
}

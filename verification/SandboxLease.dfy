/** The lease callbacks of a validation run, on the session's log: each is one event that append
    accepts, and what it does to the lease is what the sandbox model says it does. */
module SandboxLease {
  import opened LineSplitting
  import opened SessionModel
  import opened SessionLog
  import opened SessionHistory
  import Sandbox = SandboxRun

  /** A lease as the sandbox model sees it. */
  function StateOf(lease: Option<Lease>): Sandbox.LeaseState {
    if lease.None? then Sandbox.NoLease
    else if lease.value.containerId.None? then Sandbox.Intent
    else Sandbox.Run(lease.value.containerId.value)
  }

  function LeaseOf(log: seq<Event>): Option<Lease> { if log == [] then None else Last(log).lease }

  // ----- what is known of the state a callback meets

  predicate IsKnown(s: Snapshot, preview: Option<string>, lease: Option<Lease>, session: Session) {
    && ShapeOk(s) && RecordDigestsOk(s, session.digests) && s.sessionId == session.id
    && (preview.Some? <==> s.candidate.Some?)
    && (lease.Some? ==> IsCarryState(s.state) && LeaseMatches(lease.value, s))
    && (IsIntent(lease) ==> s.validation.None?)
    && (lease.Some? && IsTerminal(s.state) ==> s.cleanupPending)
  }

  /** While an ended session has a lease, its cleanup is pending. */
  lemma {:induction false} LeaseOwesCleanup(log: seq<Event>, i: nat, session: Session)
    requires IsLoadable(log, session) && i < |log|
    ensures log[i].lease.Some? && IsTerminal(log[i].snapshot.state) ==> log[i].snapshot.cleanupPending
    decreases i
  {
    if i == 0 {
      StepAt(log, 0, session);
    } else {
      LeaseOwesCleanup(log, i - 1, session);
      OwesStill(log, i, session);
    }
  }

  lemma {:induction false} OwesStill(log: seq<Event>, i: nat, session: Session)
    requires IsLoadable(log, session) && 0 < i < |log|
    requires log[i - 1].lease.Some? && IsTerminal(log[i - 1].snapshot.state) ==> log[i - 1].snapshot.cleanupPending
    ensures log[i].lease.Some? && IsTerminal(log[i].snapshot.state) ==> log[i].snapshot.cleanupPending
  {
    StepAt(log, i, session);
    OwesNext(LoadedOf(log[i - 1], session), log[i]);
  }

  lemma {:induction false} OwesNext(before: Loaded, event: Event)
    requires Follows(before, event)
    requires before.lease.Some? && IsTerminal(before.snapshot.state) ==> before.snapshot.cleanupPending
    ensures event.lease.Some? && IsTerminal(event.snapshot.state) ==> event.snapshot.cleanupPending
  {
  }

  lemma {:induction false} LastDigestsOk(log: seq<Event>, session: Session)
    requires IsLoadable(log, session)
    ensures RecordDigestsOk(Last(log).snapshot, session.digests) && Last(log).snapshot.sessionId == session.id
  {
  }

  lemma {:induction false} LastIsKnown(log: seq<Event>, session: Session)
    requires IsLoadable(log, session)
    ensures Replay(log, session) == Some(LoadedOf(Last(log), session))
    ensures IsKnown(Last(log).snapshot, Last(log).preview, Last(log).lease, session)
  {
    var n := |log| - 1;
    LastIsLoaded(log, session);
    LastDigestsOk(log, session);
    StepAt(log, n, session);
    AlwaysFits(log, n, session);
    LeaseAlwaysFits(log, n, session);
    LeaseOwesCleanup(log, n, session);
  }

  // ----- each callback's event is allowed

  /** `_next_timestamp` */
  function Touched(s: Snapshot, now: nat): Snapshot { s.(updatedAt := if s.updatedAt < now then now else s.updatedAt) }

  /** A request for an event that keeps the lease, replaces it, or clears it. */
  function LeaseRequest(kind: Kind, s: Snapshot, lease: Option<Lease>, current: Option<Lease>): Request {
    Request(kind, s, if kind in {ValidationIntent, ValidationRun} then lease else None,
            lease.None? && current.Some? && kind !in {ValidationIntent, ValidationRun})
  }

  /** The event of a request is accepted, and leaves this lease. */
  ghost predicate IsAccepted(before: Loaded, request: Request, lease: Option<Lease>, session: Session) {
    && ShapeOk(request.snapshot) && RequestOk(request, session, before.lease)
    && (forall stored :: Next(before, Proposed(before, request, stored), session).Some?)
    && LeaseAfter(request, before.lease) == lease
  }

  ghost predicate MeetsKnown(before: Loaded, session: Session) {
    IsKnown(before.snapshot, before.preview, before.lease, session)
  }

  lemma {:induction false} IntentIsAccepted(before: Loaded, lease: Lease, now: nat, session: Session)
    requires MeetsKnown(before, session) && before.lease.None? && lease.containerId.None? && LeaseMatches(lease, before.snapshot)
    requires before.snapshot.state == Validating && before.snapshot.validation.None?
    ensures IsAccepted(before, LeaseRequest(ValidationIntent, Touched(before.snapshot, now), Some(lease), before.lease), Some(lease), session)
  {
  }

  lemma {:induction false} RunIsAccepted(before: Loaded, lease: Lease, now: nat, session: Session)
    requires MeetsKnown(before, session) && lease.containerId.Some? && before.lease == Some(lease.(containerId := None))
    ensures IsAccepted(before, LeaseRequest(ValidationRun, Touched(before.snapshot, now), Some(lease), before.lease), Some(lease), session)
  {
  }

  lemma {:induction false} AbandonIsAccepted(before: Loaded, now: nat, session: Session)
    requires MeetsKnown(before, session) && IsIntent(before.lease) && before.snapshot.state == Validating
    ensures IsAccepted(before, LeaseRequest(ValidationIntentAbandoned, Touched(before.snapshot, now), None, before.lease), None, session)
  {
  }

  /** The kind and the snapshot of a cleanup that worked or did not. */
  function CleanupRequest(before: Loaded, succeeded: bool, now: nat): Request {
    LeaseRequest(if succeeded then CleanupComplete else CleanupPending,
                 Touched(before.snapshot, now).(cleanupPending := !succeeded), None, before.lease)
  }

  lemma {:induction false} CleanupIsAccepted(before: Loaded, succeeded: bool, now: nat, session: Session)
    requires MeetsKnown(before, session) && before.lease.Some? && IsTerminal(before.snapshot.state)
    ensures IsAccepted(before, CleanupRequest(before, succeeded, now), None, session)
  {
  }

  /** The end of a validation that was recorded: validated when it succeeded; failed otherwise, with
      the lease dropped or, while the container is still owed, carried. */
  function FinishRequest(before: Loaded, success: bool, cleanupPending: bool, failure: Failure, now: nat): Request {
    var s := Touched(before.snapshot, now);
    if cleanupPending then LeaseRequest(SessionFailed, s.(state := Failed, failure := Some(failure), cleanupPending := true), before.lease, before.lease)
    else if success then LeaseRequest(CandidateValidated, s.(state := Validated), None, before.lease)
    else LeaseRequest(SessionFailed, s.(state := Failed, failure := Some(failure), cleanupPending := true), None, before.lease)
  }

  lemma {:induction false} FinishIsAccepted(before: Loaded, success: bool, cleanupPending: bool, failure: Failure, now: nat, session: Session)
    requires MeetsKnown(before, session) && before.snapshot.state == Validating && IsBound(before.lease)
    requires before.snapshot.validation.Some? && before.snapshot.validation.value.success == success
    ensures IsAccepted(before, FinishRequest(before, success, cleanupPending, failure, now), if cleanupPending then before.lease else None, session)
  {
  }

  // ----- the callbacks on the store

  /** The store after one accepted event. */
  twostate predicate GrewByOne(store: SessionStore)
    reads store
  {
    && IsLoadable(store.events, store.session) && |store.events| == |old(store.events)| + 1 && old(store.events) <= store.events
  }

  /** Appends an event known to be accepted. */
  method AppendAccepted(store: SessionStore, request: Request, ghost lease: Option<Lease>)
    requires !store.readOnly && IsLoadable(store.events, store.session)
    requires IsAccepted(Replay(store.events, store.session).value, request, lease, store.session)
    modifies store
    ensures GrewByOne(store) && LeaseOf(store.events) == lease && Last(store.events).snapshot == request.snapshot
  {
    ghost var log, before := store.events, Replay(store.events, store.session).value;
    ReplayMore(log, Proposed(before, request, store.preview), store.session);
    var outcome := store.Append(request);
  }

  /** `_register_validation_intent` */
  method RegisterIntent(store: SessionStore, candidate: Candidate, lease: Lease, now: nat) returns (answer: Sandbox.Answer)
    requires !store.readOnly && lease.containerId.None? && lease.sessionId == store.session.id && lease.candidateId == candidate.candidateId
    modifies store
    ensures answer == Sandbox.Raised <==> !IsLoadable(old(store.events), store.session)
    ensures answer == Sandbox.Yes ==> GrewByOne(store) && old(LeaseOf(store.events)).None? && LeaseOf(store.events) == Some(lease)
    ensures answer == Sandbox.Yes ==> StateOf(LeaseOf(store.events)) == Sandbox.Intent && Last(store.events).snapshot.state == Validating
    ensures answer == Sandbox.Yes <==> IsLoadable(old(store.events), store.session) && AwaitsIntent(old(store.events), candidate)
    ensures answer != Sandbox.Yes ==> store.events == old(store.events)
  {
    var loaded := store.Load();
    if loaded.None? {
      return Sandbox.Raised;
    }
    LastIsKnown(store.events, store.session);
    var s := loaded.value.snapshot;
    if s.state != Validating || s.candidate != Some(candidate) || s.validation.Some? || loaded.value.lease.Some? {
      return Sandbox.No;
    }
    IntentIsAccepted(loaded.value, lease, now, store.session);
    AppendAccepted(store, LeaseRequest(ValidationIntent, Touched(s, now), Some(lease), loaded.value.lease), Some(lease));
    return Sandbox.Yes;
  }

  /** The session validates this candidate, and no run of it has begun. */
  predicate AwaitsIntent(log: seq<Event>, candidate: Candidate) {
    && log != [] && Last(log).snapshot.state == Validating && Last(log).snapshot.candidate == Some(candidate)
    && Last(log).snapshot.validation.None? && Last(log).lease.None?
  }

  /** `_register_validation_run`: the intent is bound whenever it is this run's, and accepted while
      the session is validating. */
  method RegisterRun(store: SessionStore, candidate: Candidate, lease: Lease, now: nat) returns (answer: Sandbox.Answer)
    requires !store.readOnly && lease.containerId.Some? && lease.sessionId == store.session.id && lease.candidateId == candidate.candidateId
    modifies store
    ensures answer == Sandbox.Raised <==> !IsLoadable(old(store.events), store.session)
    ensures answer == Sandbox.Yes ==> IsBinding(store, lease) && Last(store.events).snapshot.state == Validating
    ensures answer == Sandbox.No ==> store.events == old(store.events) || (IsBinding(store, lease) && IsTerminal(Last(store.events).snapshot.state))
    ensures IsBinding(store, lease) <==> IsLoadable(old(store.events), store.session) && IsIntentOf(old(store.events), candidate, lease)
    ensures answer == Sandbox.Yes <==>
      && IsLoadable(old(store.events), store.session) && IsIntentOf(old(store.events), candidate, lease)
      && Last(old(store.events)).snapshot.state == Validating
  {
    var loaded := store.Load();
    if loaded.None? {
      return Sandbox.Raised;
    }
    LastIsKnown(store.events, store.session);
    var s := loaded.value.snapshot;
    if s.candidate != Some(candidate) || s.validation.Some? || loaded.value.lease != Some(lease.(containerId := None)) || !IsCarryState(s.state) {
      return Sandbox.No;
    }
    RunIsAccepted(loaded.value, lease, now, store.session);
    AppendAccepted(store, LeaseRequest(ValidationRun, Touched(s, now), Some(lease), loaded.value.lease), Some(lease));
    return if s.state == Validating then Sandbox.Yes else Sandbox.No;
  }

  /** The log ends with this candidate's intent for the container of the lease. */
  predicate IsIntentOf(log: seq<Event>, candidate: Candidate, lease: Lease) {
    LeaseOf(log) == Some(lease.(containerId := None)) && Last(log).snapshot.candidate == Some(candidate)
  }

  /** One event turned the intent into the bound lease. */
  twostate predicate IsBinding(store: SessionStore, lease: Lease)
    requires lease.containerId.Some?
    reads store
  {
    && GrewByOne(store) && old(LeaseOf(store.events)) == Some(lease.(containerId := None)) && LeaseOf(store.events) == Some(lease)
    && StateOf(old(LeaseOf(store.events))) == Sandbox.Intent && StateOf(LeaseOf(store.events)) == Sandbox.Run(lease.containerId.value)
  }

  /** The log ends with this lease, of this candidate. */
  predicate IsHeld(log: seq<Event>, candidate: Candidate, lease: Lease) {
    LeaseOf(log) == Some(lease) && Last(log).snapshot.candidate == Some(candidate)
  }

  /** One event dropped the lease. */
  twostate predicate IsDropped(store: SessionStore, lease: Lease)
    reads store
  {
    GrewByOne(store) && old(LeaseOf(store.events)) == Some(lease) && LeaseOf(store.events).None?
  }

  /** `_release_validation_intent`: only this run's intent is dropped; `cleaned` says whether the private
      files of an ended session could be removed. */
  method ReleaseIntent(store: SessionStore, candidate: Candidate, lease: Lease, cleaned: bool, now: nat) returns (answer: Sandbox.Answer)
    requires !store.readOnly && lease.containerId.None?
    modifies store
    ensures answer == Sandbox.Raised <==> !IsLoadable(old(store.events), store.session)
    ensures store.events == old(store.events) || IsDropped(store, lease)
    ensures answer == Sandbox.Yes ==> LeaseOf(store.events).None?
    ensures answer == Sandbox.No ==> store.events == old(store.events) && LeaseOf(store.events).Some?
    ensures answer == Sandbox.Yes <==>
      IsLoadable(old(store.events), store.session) && (LeaseOf(old(store.events)).None? || IsHeld(old(store.events), candidate, lease))
    ensures IsDropped(store, lease) <==> IsLoadable(old(store.events), store.session) && IsHeld(old(store.events), candidate, lease)
  {
    var loaded := store.Load();
    if loaded.None? {
      return Sandbox.Raised;
    }
    LastIsKnown(store.events, store.session);
    var s, current := loaded.value.snapshot, loaded.value.lease;
    if current.None? {
      return Sandbox.Yes;
    }
    if s.candidate != Some(candidate) || current != Some(lease) {
      return Sandbox.No;
    }
    if s.state == Validating {
      AbandonIsAccepted(loaded.value, now, store.session);
      AppendAccepted(store, LeaseRequest(ValidationIntentAbandoned, Touched(s, now), None, current), None);
    } else {
      CleanupIsAccepted(loaded.value, cleaned, now, store.session);
      AppendAccepted(store, CleanupRequest(loaded.value, cleaned, now), None);
    }
    return Sandbox.Yes;
  }

  /** `_release_validation_run`: only for a session that has ended. */
  method ReleaseRun(store: SessionStore, candidate: Candidate, lease: Lease, cleaned: bool, now: nat) returns (answer: Sandbox.Answer)
    requires !store.readOnly && lease.containerId.Some?
    modifies store
    ensures answer == Sandbox.Raised <==> !IsLoadable(old(store.events), store.session)
    ensures store.events == old(store.events) || (IsDropped(store, lease) && IsTerminal(Last(store.events).snapshot.state))
    ensures answer == Sandbox.Yes ==> LeaseOf(store.events).None?
    ensures answer == Sandbox.No ==> store.events == old(store.events) && LeaseOf(store.events).Some?
    ensures answer == Sandbox.Yes <==>
      && IsLoadable(old(store.events), store.session)
      && (LeaseOf(old(store.events)).None? || (IsHeld(old(store.events), candidate, lease) && IsTerminal(Last(old(store.events)).snapshot.state)))
    ensures IsDropped(store, lease) <==>
      && IsLoadable(old(store.events), store.session) && IsHeld(old(store.events), candidate, lease)
      && IsTerminal(Last(old(store.events)).snapshot.state)
  {
    var loaded := store.Load();
    if loaded.None? {
      return Sandbox.Raised;
    }
    LastIsKnown(store.events, store.session);
    var s, current := loaded.value.snapshot, loaded.value.lease;
    if current.None? {
      return Sandbox.Yes;
    }
    if s.candidate != Some(candidate) || current != Some(lease) || !IsTerminal(s.state) {
      return Sandbox.No;
    }
    CleanupIsAccepted(loaded.value, cleaned, now, store.session);
    AppendAccepted(store, CleanupRequest(loaded.value, cleaned, now), None);
    return Sandbox.Yes;
  }
}

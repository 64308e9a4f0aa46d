/** What every loadable log of a session obeys, over its whole history. */
module SessionHistory {
  import opened LineSplitting
  import opened SessionModel
  import opened SessionLog

  // ----- a log seen event by event

  /** The event alone fixes the state after it. */
  lemma {:induction false} LastIsLoaded(log: seq<Event>, session: Session)
    requires IsLoadable(log, session)
    ensures Replay(log, session) == Some(LoadedOf(Last(log), session))
    ensures |log| > 1 ==> IsLoadable(Front(log), session)
  {
  }

  /** Every event follows the rules after the one before it. */
  lemma {:induction false} StepAt(log: seq<Event>, i: nat, session: Session)
    requires IsLoadable(log, session) && i < |log|
    ensures ShapeOk(log[i].snapshot) && log[i].sequence == i && log[i].state == log[i].snapshot.state
    ensures i == 0 ==> IsFirst(log[0])
    ensures i > 0 ==> Follows(LoadedOf(log[i - 1], session), log[i]) && log[i].previous == session.digests.ofEvent(log[i - 1])
    decreases |log|
  {
    LastIsLoaded(log, session);
    if i < |log| - 1 {
      StepAt(Front(log), i, session);
    } else if i > 0 {
      LastIsLoaded(Front(log), session);
      LengthIsSequence(log, session);
    }
  }

  lemma {:induction false} LengthIsSequence(log: seq<Event>, session: Session)
    requires IsLoadable(log, session)
    ensures Last(log).sequence == |log| - 1
  {
    if |log| > 1 {
      LastIsLoaded(Front(log), session);
      LengthIsSequence(Front(log), session);
    }
  }

  /** How the last event is tied to those before it. */
  lemma {:induction false} LastIsTied(log: seq<Event>, session: Session)
    requires IsLoadable(log, session)
    ensures Replay(log, session).value.digest == session.digests.ofEvent(Last(log)) && Last(log).sequence == |log| - 1
    ensures |log| > 1 ==>
      IsLoadable(Front(log), session) && Last(log).previous == Replay(Front(log), session).value.digest
  {
    LastIsLoaded(log, session);
    LengthIsSequence(log, session);
  }

  // ----- write-once records and absorbing states

  predicate Keeps<T(==)>(before: Option<T>, after: Option<T>) { before.Some? ==> after == before }

  /** Records present stay as they are, identity never changes, time does not run back, and a
      finished session stays finished. */
  predicate Extends(before: Snapshot, after: Snapshot) {
    && SameIdentity(before, after) && before.updatedAt <= after.updatedAt
    && Keeps(before.candidate, after.candidate) && Keeps(before.validation, after.validation)
    && Keeps(before.approval, after.approval) && Keeps(before.application, after.application)
    && Keeps(before.decision, after.decision) && Keeps(before.failure, after.failure)
    && (IsTerminal(before.state) ==>
         && after.state == before.state && after.candidate == before.candidate && after.validation == before.validation
         && after.approval == before.approval && after.application == before.application
         && after.decision == before.decision && after.failure == before.failure)
  }

  lemma {:induction false} StepExtends(before: Loaded, event: Event)
    requires Follows(before, event)
    ensures Extends(before.snapshot, event.snapshot)
    ensures Keeps(before.preview, event.preview)
  {
  }

  /** Over the whole log: every record and the preview digest are write-once, and terminal states absorb. */
  lemma {:induction false} HistoryExtends(log: seq<Event>, i: nat, j: nat, session: Session)
    requires IsLoadable(log, session) && i <= j < |log|
    ensures Extends(log[i].snapshot, log[j].snapshot) && Keeps(log[i].preview, log[j].preview)
    decreases j
  {
    if i < j {
      HistoryExtends(log, i, j - 1, session);
      StepAt(log, j, session);
      StepExtends(LoadedOf(log[j - 1], session), log[j]);
    }
  }

  /** Which records a state has, and which it cannot have. */
  predicate RecordsFit(s: Snapshot, preview: Option<string>) {
    && (s.application.Some? <==> s.state == Applied)
    && (s.decision.Some? <==> s.state in {Rejected, Cancelled, Expired})
    && (s.failure.Some? <==> s.state == Failed)
    && (s.state in {Approved, Applying, Applied} ==> s.approval.Some?)
    && (s.approval.Some? ==> s.state in {Approved, Applying, Applied, Rejected, Cancelled, Expired})
    && (s.validation.Some? ==> s.state in {Validating, Validated, Approved, Applying, Applied, Rejected, Cancelled, Expired, Failed})
    && (preview.Some? <==> s.candidate.Some?)
    && (s.cleanupPending ==> IsTerminal(s.state))
  }

  lemma {:induction false} ShapeFits(event: Event, approvedBefore: bool)
    requires ShapeOk(event.snapshot) && (event.preview.Some? <==> event.snapshot.candidate.Some?)
    requires event.snapshot.approval.Some? ==> approvedBefore || event.snapshot.state == Approved
    requires approvedBefore ==> IsLate(event.snapshot.state)
    requires event.snapshot.validation.Some? ==> event.snapshot.state !in {Created, Generating}
    ensures RecordsFit(event.snapshot, event.preview)
  {
  }

  /** The states an approved session can be in. */
  predicate IsLate(s: State) { s in {Approved, Applying, Applied, Rejected, Cancelled, Expired} }

  lemma {:induction false} StepFits(before: Loaded, event: Event)
    requires Follows(before, event) && RecordsFit(before.snapshot, before.preview) && ShapeOk(event.snapshot)
    ensures RecordsFit(event.snapshot, event.preview)
  {
    StepKinds(before, event);
    ShapeFits(event, before.snapshot.approval.Some?);
  }

  /** What one step does to the states and to the records that decide them. */
  lemma {:induction false} StepKinds(before: Loaded, event: Event)
    requires Follows(before, event)
    ensures IsLate(before.snapshot.state) ==> IsLate(event.snapshot.state)
    ensures before.snapshot.state !in {Created, Generating} ==> event.snapshot.state !in {Created, Generating}
    ensures event.kind == CandidateApproved ==> event.snapshot.state == Approved
    ensures event.kind != CandidateApproved ==> event.snapshot.approval == before.snapshot.approval
    ensures event.kind == ValidationResult ==> event.snapshot.state == Validating
    ensures event.kind != ValidationResult ==> event.snapshot.validation == before.snapshot.validation
    ensures event.kind != CandidateMade ==> event.snapshot.candidate == before.snapshot.candidate && event.preview == before.preview
    ensures event.kind == CandidateMade ==> event.preview.Some? && event.snapshot.candidate.Some?
  {
  }

  lemma {:induction false} FitsNext(log: seq<Event>, i: nat, session: Session)
    requires IsLoadable(log, session) && 0 < i < |log| && RecordsFit(log[i - 1].snapshot, log[i - 1].preview)
    ensures RecordsFit(log[i].snapshot, log[i].preview)
  {
    StepAt(log, i, session);
    StepFits(LoadedOf(log[i - 1], session), log[i]);
  }

  /** At every point of a loadable log the records fit the state. */
  lemma {:induction false} AlwaysFits(log: seq<Event>, i: nat, session: Session)
    requires IsLoadable(log, session) && i < |log|
    ensures RecordsFit(log[i].snapshot, log[i].preview)
    decreases i
  {
    if i > 0 {
      AlwaysFits(log, i - 1, session);
      FitsNext(log, i, session);
    } else {
      StepAt(log, 0, session);
      FreshStart(log[0]);
    }
  }

  /** A session starts with no record at all. */
  lemma {:induction false} FreshStart(event: Event)
    requires IsFirst(event) && ShapeOk(event.snapshot) && event.state == event.snapshot.state
    ensures
      var s := event.snapshot;
      && s.candidate.None? && s.validation.None? && s.approval.None? && s.application.None? && s.decision.None? && s.failure.None?
      && !s.cleanupPending && event.preview.None? && event.lease.None?
  {
  }

  // ----- the application counter

  function Count(log: seq<Event>, kind: Kind): nat {
    if log == [] then 0 else Count(Front(log), kind) + (if Last(log).kind == kind then 1 else 0)
  }

  function OpenApplication(s: State): nat { if s in {Applying, Applied} then 1 else 0 }

  lemma {:induction false} StepBalances(before: Loaded, event: Event)
    requires Follows(before, event)
    ensures OpenApplication(before.snapshot.state) + (if event.kind == StartedApplying then 1 else 0)
      == OpenApplication(event.snapshot.state) + (if event.kind in {ApplicationConflict, Recovered} then 1 else 0)
  {
  }

  lemma {:induction false} BalanceNext(log: seq<Event>, n: nat, session: Session)
    requires IsLoadable(log, session) && 0 < n < |log|
    ensures OpenApplication(log[n - 1].state) + (if log[n].kind == StartedApplying then 1 else 0)
      == OpenApplication(log[n].state) + (if log[n].kind in {ApplicationConflict, Recovered} then 1 else 0)
  {
    StepAt(log, n - 1, session);
    StepAt(log, n, session);
    StepBalances(LoadedOf(log[n - 1], session), log[n]);
  }

  /** Every start of an application but the one that is open or succeeded was undone by a
      conflict or a recovery. */
  lemma {:induction false} ApplicationsBalance(log: seq<Event>, session: Session)
    requires IsLoadable(log, session)
    ensures Count(log, StartedApplying) == Count(log, ApplicationConflict) + Count(log, Recovered) + OpenApplication(Last(log).state)
  {
    var front, n := Front(log), |log| - 1;
    if n > 0 {
      LastIsLoaded(log, session);
      ApplicationsBalance(front, session);
      BalanceNext(log, n, session);
    } else {
      StepAt(log, 0, session);
      assert front == [];
    }
  }

  // ----- the lease

  /** The lease of the last event that bound a container. */
  function BoundLease(log: seq<Event>): Option<Lease> {
    if log == [] then None
    else if Last(log).kind == ValidationRun then Last(log).lease
    else BoundLease(Front(log))
  }

  /** The container bound up to and including the event at `i`. */
  function BoundAt(log: seq<Event>, i: nat): Option<Lease>
    requires i < |log|
  {
    BoundLease(log[..i + 1])
  }

  predicate IsEarly(s: State) { s in {Created, Generating, Validating} }

  /** What the lease now says about the container ever bound. */
  predicate LeaseFits(bound: Option<Lease>, s: Snapshot, lease: Option<Lease>) {
    && (lease.Some? ==> IsCarryState(s.state) && LeaseMatches(lease.value, s))
    && (bound.None? ==> !IsBound(lease) && s.validation.None?)
    && (bound.Some? ==> IsBound(bound) && LeaseMatches(bound.value, s) && (lease == bound || (lease.None? && !IsEarly(s.state))))
  }

  lemma {:induction false} StepFitsLease(bound: Option<Lease>, before: Loaded, event: Event)
    requires Follows(before, event) && LeaseFits(bound, before.snapshot, before.lease)
    ensures LeaseFits(if event.kind == ValidationRun then event.lease else bound, event.snapshot, event.lease)
    ensures bound.Some? ==> event.kind !in {ValidationIntent, ValidationIntentAbandoned, ValidationRun}
    ensures IsTerminal(before.snapshot.state) && before.lease.None? ==> event.lease.None?
    ensures event.kind == CleanupComplete ==> IsTerminal(event.snapshot.state) && event.lease.None?
  {
  }

  lemma {:induction false} BoundNext(log: seq<Event>, j: nat)
    requires j < |log|
    ensures BoundAt(log, j) ==
      if log[j].kind == ValidationRun then log[j].lease else if j == 0 then None else BoundAt(log, j - 1)
  {
    assert Front(log[..j + 1]) == log[..j] && Last(log[..j + 1]) == log[j];
    assert j == 0 ==> BoundLease(log[..j]) == None;
  }

  lemma {:induction false} LeaseStepAt(log: seq<Event>, j: nat, session: Session)
    requires IsLoadable(log, session) && 0 < j < |log| && LeaseFits(BoundAt(log, j - 1), log[j - 1].snapshot, log[j - 1].lease)
    ensures LeaseFits(BoundAt(log, j), log[j].snapshot, log[j].lease)
    ensures BoundAt(log, j - 1).Some? ==>
      BoundAt(log, j) == BoundAt(log, j - 1) && log[j].kind !in {ValidationIntent, ValidationIntentAbandoned, ValidationRun}
  {
    StepAt(log, j, session);
    BoundNext(log, j);
    StepFitsLease(BoundAt(log, j - 1), LoadedOf(log[j - 1], session), log[j]);
  }

  /** A lease exists only while validating or in a state that still owes its removal, and it
      names the session's candidate. */
  lemma {:induction false} LeaseAlwaysFits(log: seq<Event>, i: nat, session: Session)
    requires IsLoadable(log, session) && i < |log|
    ensures LeaseFits(BoundAt(log, i), log[i].snapshot, log[i].lease)
    decreases i
  {
    if i > 0 {
      LeaseAlwaysFits(log, i - 1, session);
      LeaseStepAt(log, i, session);
    } else {
      StepAt(log, 0, session);
      FreshStart(log[0]);
      BoundNext(log, 0);
    }
  }

  lemma {:induction false} StillBound(log: seq<Event>, j: nat, session: Session)
    requires IsLoadable(log, session) && 0 < j < |log| && BoundAt(log, j - 1).Some?
    ensures BoundAt(log, j) == BoundAt(log, j - 1)
    ensures log[j].kind !in {ValidationIntent, ValidationIntentAbandoned, ValidationRun}
  {
    LeaseAlwaysFits(log, j - 1, session);
    LeaseStepAt(log, j, session);
  }

  /** Once bound, the container never changes. */
  lemma {:induction false} BoundForever(log: seq<Event>, i: nat, j: nat, session: Session)
    requires IsLoadable(log, session) && i <= j < |log| && BoundAt(log, i).Some?
    ensures BoundAt(log, j) == BoundAt(log, i)
    ensures i < j ==> log[j].kind !in {ValidationIntent, ValidationIntentAbandoned, ValidationRun}
    decreases j
  {
    if i < j {
      BoundForever(log, i, j - 1, session);
      StillBound(log, j, session);
    }
  }

  /** At most one container is ever bound in a session. */
  lemma {:induction false} OneContainer(log: seq<Event>, i: nat, j: nat, session: Session)
    requires IsLoadable(log, session) && i <= j < |log| && IsBound(log[i].lease) && IsBound(log[j].lease)
    ensures log[i].lease == log[j].lease
  {
    LeaseAlwaysFits(log, i, session);
    LeaseAlwaysFits(log, j, session);
    BoundForever(log, i, j, session);
  }

  /** After a container is bound, no intent is made or dropped and no other container is bound. */
  lemma {:induction false} NothingAfterRun(log: seq<Event>, i: nat, j: nat, session: Session)
    requires IsLoadable(log, session) && i < j < |log| && log[i].kind == ValidationRun
    ensures log[j].kind !in {ValidationIntent, ValidationIntentAbandoned, ValidationRun}
  {
    LeaseAlwaysFits(log, i, session);
    BoundNext(log, i);
    LoadableIsCarried(log, session);
    CarriesAt(log, i);
    BoundForever(log, i, j, session);
  }

  // ----- where records and leases come from

  /** What one event brings, and that all else is carried over. */
  predicate Carries(a: Event, b: Event) {
    && (b.kind == CandidateMade || b.snapshot.candidate == a.snapshot.candidate)
    && (b.kind == ValidationResult || b.snapshot.validation == a.snapshot.validation)
    && (b.kind == CandidateApproved || b.snapshot.approval == a.snapshot.approval)
    && (b.kind == StartedApplying || b.state !in {Applying, Applied} || (a.state in {Applying, Applied} && b.state == Applied))
    && (b.lease.None? || b.kind == ValidationIntent ||
         (a.lease.Some? && SameIntent(a.lease.value, b.lease.value) && (b.kind == ValidationRun || b.lease == a.lease)))
    && (IsTerminal(a.state) && a.lease.None? ==> IsTerminal(b.state) && b.lease.None?)
  }

  predicate Brings(b: Event) {
    && (b.kind == StartedApplying ==> b.state == Applying)
    && (b.kind == ValidationIntent ==> IsIntent(b.lease))
    && (b.kind == ValidationRun ==> IsBound(b.lease))
    && (b.kind == ValidationResult ==>
         IsBound(b.lease) && b.snapshot.validation.Some? && b.lease.value.candidateId == b.snapshot.validation.value.candidateId)
    && (b.kind == CleanupComplete ==> IsTerminal(b.state) && b.lease.None?)
  }

  lemma {:induction false} StepCarries(before: Event, event: Event, session: Session)
    requires Follows(LoadedOf(before, session), event) && ShapeOk(event.snapshot)
    requires event.state == event.snapshot.state && before.state == before.snapshot.state
    ensures Carries(before, event) && Brings(event)
  {
    var loaded := LoadedOf(before, session);
    StepKinds(loaded, event);
    LeaseCarries(event.kind, before.snapshot, event.snapshot, before.lease, event.lease);
  }

  /** What the lease rule alone says. */
  lemma {:induction false} LeaseCarries(kind: Kind, before: Snapshot, after: Snapshot, previous: Option<Lease>, current: Option<Lease>)
    requires LeaseUpdateOk(kind, before, after, previous, current) && PairOk(kind, before.state, after.state) && ShapeOk(after)
    ensures current.None? || kind == ValidationIntent ||
      (previous.Some? && SameIntent(previous.value, current.value) && (kind == ValidationRun || current == previous))
    ensures IsTerminal(before.state) && previous.None? ==> IsTerminal(after.state) && current.None?
    ensures kind == ValidationIntent ==> IsIntent(current)
    ensures kind == ValidationRun ==> IsBound(current)
    ensures kind == ValidationResult ==>
      IsBound(current) && after.validation.Some? && current.value.candidateId == after.validation.value.candidateId
    ensures kind == CleanupComplete ==> IsTerminal(after.state) && current.None?
    ensures kind == StartedApplying ==> after.state == Applying
    ensures kind == StartedApplying || after.state !in {Applying, Applied} || (before.state in {Applying, Applied} && after.state == Applied)
  {
  }

  predicate IsEmptyHanded(event: Event) {
    && event.snapshot.candidate.None? && event.snapshot.validation.None? && event.snapshot.approval.None? && event.lease.None?
    && event.state == Created && event.kind == SessionCreated
  }

  /** A log in which every event carries over what it does not bring. */
  predicate Carried(log: seq<Event>) {
    && log != []
    && if |log| == 1 then IsEmptyHanded(log[0]) else Carried(Front(log)) && Carries(Last(Front(log)), Last(log)) && Brings(Last(log))
  }

  lemma {:induction false} LoadableIsCarried(log: seq<Event>, session: Session)
    requires IsLoadable(log, session)
    ensures Carried(log)
  {
    StepAt(log, |log| - 1, session);
    if |log| == 1 {
      FreshStart(log[0]);
    } else {
      LastIsLoaded(log, session);
      LoadableIsCarried(Front(log), session);
      StepAt(log, |log| - 2, session);
      StepCarries(log[|log| - 2], log[|log| - 1], session);
    }
  }

  lemma {:induction false} CarriesAt(log: seq<Event>, j: nat)
    requires Carried(log) && j < |log|
    ensures j == 0 ==> IsEmptyHanded(log[0])
    ensures j > 0 ==> Carries(log[j - 1], log[j]) && Brings(log[j])
    decreases |log|
  {
    if j < |log| - 1 {
      CarriesAt(Front(log), j);
    }
  }

  lemma {:induction false} TraceIntent(log: seq<Event>, j: nat) returns (i: nat)
    requires Carried(log) && j < |log| && log[j].lease.Some?
    ensures i <= j && log[i].kind == ValidationIntent && log[i].lease == Some(log[j].lease.value.(containerId := None))
    ensures IsBound(log[j].lease) ==> i < j
    decreases j
  {
    CarriesAt(log, j);
    if log[j].kind == ValidationIntent {
      i := j;
    } else {
      i := TraceIntent(log, j - 1);
    }
  }

  lemma {:induction false} TraceRun(log: seq<Event>, j: nat) returns (i: nat)
    requires Carried(log) && j < |log| && IsBound(log[j].lease)
    ensures i <= j && log[i].kind == ValidationRun && log[i].lease == log[j].lease
    decreases j
  {
    CarriesAt(log, j);
    if log[j].kind == ValidationRun {
      i := j;
    } else {
      i := TraceRun(log, j - 1);
    }
  }

  lemma {:induction false} TraceCandidate(log: seq<Event>, j: nat) returns (i: nat)
    requires Carried(log) && j < |log| && log[j].snapshot.candidate.Some?
    ensures i <= j && log[i].kind == CandidateMade && log[i].snapshot.candidate == log[j].snapshot.candidate
    decreases j
  {
    CarriesAt(log, j);
    if log[j].kind == CandidateMade {
      i := j;
    } else {
      i := TraceCandidate(log, j - 1);
    }
  }

  /** The event that brought the validation record, under a lease for the same candidate. */
  lemma {:induction false} TraceValidation(log: seq<Event>, j: nat) returns (i: nat)
    requires Carried(log) && j < |log| && log[j].snapshot.validation.Some?
    ensures i <= j && log[i].kind == ValidationResult && log[i].snapshot.validation == log[j].snapshot.validation
    ensures IsBound(log[i].lease) && log[i].lease.value.candidateId == log[i].snapshot.validation.value.candidateId
    decreases j
  {
    CarriesAt(log, j);
    if log[j].kind == ValidationResult {
      i := j;
    } else {
      i := TraceValidation(log, j - 1);
    }
  }

  lemma {:induction false} TraceApproval(log: seq<Event>, j: nat) returns (i: nat)
    requires Carried(log) && j < |log| && log[j].snapshot.approval.Some?
    ensures i <= j && log[i].kind == CandidateApproved && log[i].snapshot.approval == log[j].snapshot.approval
    decreases j
  {
    CarriesAt(log, j);
    if log[j].kind == CandidateApproved {
      i := j;
    } else {
      i := TraceApproval(log, j - 1);
    }
  }

  lemma {:induction false} TraceApplying(log: seq<Event>, j: nat) returns (i: nat)
    requires Carried(log) && j < |log| && log[j].state in {Applying, Applied}
    ensures i <= j && log[i].kind == StartedApplying && log[i].state == Applying
    ensures log[j].state == Applied ==> i < j
    decreases j
  {
    CarriesAt(log, j);
    if log[j].kind == StartedApplying {
      i := j;
    } else {
      i := TraceApplying(log, j - 1);
    }
  }

  /** The session has ended and owes no container. */
  predicate IsReleased(event: Event) { IsTerminal(event.state) && event.lease.None? }

  lemma {:induction false} ReleasedNext(log: seq<Event>, j: nat)
    requires Carried(log) && j < |log|
    ensures log[j].kind == CleanupComplete ==> IsReleased(log[j])
    ensures j > 0 && IsReleased(log[j - 1]) ==> IsReleased(log[j])
  {
    CarriesAt(log, j);
  }

  lemma {:induction false} StaysReleased(log: seq<Event>, i: nat, j: nat)
    requires Carried(log) && i <= j < |log| && log[i].kind == CleanupComplete
    ensures IsReleased(log[j])
    decreases j
  {
    ReleasedNext(log, j);
    if i < j {
      StaysReleased(log, i, j - 1);
    }
  }

  /** A bound lease comes from an intent with the same name, labels and token, then the one event
      that bound it. */
  lemma {:induction false} IntentBeforeRun(log: seq<Event>, j: nat, session: Session) returns (intent: nat, run: nat)
    requires IsLoadable(log, session) && j < |log| && IsBound(log[j].lease)
    ensures intent < run <= j && log[intent].kind == ValidationIntent && log[run].kind == ValidationRun
    ensures log[run].lease == log[j].lease && log[intent].lease == Some(log[j].lease.value.(containerId := None))
  {
    LoadableIsCarried(log, session);
    run := TraceRun(log, j);
    intent := TraceIntent(log, run);
  }

  /** A validation record was made under the lease of the one container that ran, for the
      candidate that lease names. */
  lemma {:induction false} ValidatedUnderLease(log: seq<Event>, j: nat, session: Session) returns (run: nat, i: nat)
    requires IsLoadable(log, session) && j < |log| && log[j].snapshot.validation.Some?
    ensures run < i <= j && log[run].kind == ValidationRun && log[i].kind == ValidationResult
    ensures log[i].snapshot.validation == log[j].snapshot.validation
    ensures IsBound(log[i].lease) && log[i].lease == log[run].lease
    ensures log[i].lease.value.candidateId == log[i].snapshot.validation.value.candidateId
  {
    LoadableIsCarried(log, session);
    i := TraceValidation(log, j);
    run := TraceRun(log, i);
  }

  /** After cleanup is complete there is never a lease again. */
  lemma {:induction false} NoLeaseAfterCleanup(log: seq<Event>, i: nat, j: nat, session: Session)
    requires IsLoadable(log, session) && i <= j < |log| && log[i].kind == CleanupComplete
    ensures IsTerminal(log[j].state) && log[j].lease.None?
  {
    LoadableIsCarried(log, session);
    StaysReleased(log, i, j);
  }

  /** Where the steps of an applied repair stand in its log. */
  datatype Trail = Trail(made: nat, intent: nat, run: nat, result: nat, approved: nat, applying: nat)

  predicate IsOrdered(t: Trail, end: nat) {
    t.made < t.intent < t.run < t.result < t.approved < t.applying < end
  }

  predicate HasKinds(t: Trail, log: seq<Event>)
    requires IsOrdered(t, |log|)
  {
    && log[t.made].kind == CandidateMade && log[t.intent].kind == ValidationIntent && log[t.run].kind == ValidationRun
    && log[t.result].kind == ValidationResult && log[t.approved].kind == CandidateApproved && log[t.applying].kind == StartedApplying
  }

  /** The lease, validation, approval and application are all about one candidate. */
  predicate OneStory(intent: Option<Lease>, run: Option<Lease>, c: Option<Candidate>, v: Option<Validation>,
                     a: Option<Approval>, p: Option<Application>)
  {
    && c.Some? && v.Some? && a.Some? && p.Some? && IsBound(run)
    && intent == Some(run.value.(containerId := None)) && run.value.candidateId == c.value.candidateId
    && v.value.success && v.value.candidateId == c.value.candidateId
    && a.value.candidateId == c.value.candidateId && a.value.validationSha256 == v.value.validationSha256
    && p.value.approvalSha256 == a.value.approvalSha256 && p.value.commitOid == c.value.commitOid
    && p.value.refName == REF_PREFIX + c.value.candidateId
  }

  predicate TellsOneStory(t: Trail, log: seq<Event>)
    requires IsOrdered(t, |log|)
  {
    OneStory(log[t.intent].lease, log[t.run].lease, log[t.made].snapshot.candidate, log[t.result].snapshot.validation,
             log[t.approved].snapshot.approval, Last(log).snapshot.application)
  }

  /** Later steps stand on the records of earlier ones. */
  predicate StandsOn(event: Event) {
    && (event.state in {Applying, Applied} ==> event.snapshot.approval.Some?)
    && (event.snapshot.approval.Some? ==> event.snapshot.validation.Some?)
    && (event.kind == CandidateApproved ==> event.snapshot.approval.Some?)
    && (event.lease.Some? ==> event.snapshot.candidate.Some?)
  }

  lemma {:induction false} StandsAt(log: seq<Event>, i: nat, session: Session)
    requires IsLoadable(log, session) && i < |log|
    ensures StandsOn(log[i])
  {
    StepAt(log, i, session);
  }

  /** The steps of an applied session, each the origin of what a later one needs. */
  lemma {:induction false} FindTrail(log: seq<Event>) returns (t: Trail)
    requires Carried(log) && Last(log).state == Applied && forall i :: 0 <= i < |log| ==> StandsOn(log[i])
    ensures IsOrdered(t, |log| - 1) && HasKinds(t, log)
    ensures IsBound(log[t.run].lease) && log[t.intent].lease == Some(log[t.run].lease.value.(containerId := None))
    ensures log[t.made].snapshot.candidate.Some? && log[t.result].snapshot.validation.Some? && log[t.approved].snapshot.approval.Some?
  {
    var result, approved, applying := FindApproval(log);
    var made, intent, run := FindContainer(log, result);
    t := Trail(made, intent, run, result, approved, applying);
  }

  lemma {:induction false} FindApproval(log: seq<Event>) returns (result: nat, approved: nat, applying: nat)
    requires Carried(log) && Last(log).state == Applied && forall i :: 0 <= i < |log| ==> StandsOn(log[i])
    ensures result < approved < applying < |log| - 1
    ensures log[result].kind == ValidationResult && log[approved].kind == CandidateApproved && log[applying].kind == StartedApplying
    ensures IsBound(log[result].lease) && log[result].snapshot.validation.Some? && log[approved].snapshot.approval.Some?
  {
    applying := TraceApplying(log, |log| - 1);
    assert StandsOn(log[applying]);
    result, approved := FindResult(log, applying);
  }

  lemma {:induction false} FindResult(log: seq<Event>, applying: nat) returns (result: nat, approved: nat)
    requires Carried(log) && applying < |log| && log[applying].kind == StartedApplying && log[applying].snapshot.approval.Some?
    requires forall i :: 0 <= i < |log| ==> StandsOn(log[i])
    ensures result < approved < applying && log[result].kind == ValidationResult && log[approved].kind == CandidateApproved
    ensures IsBound(log[result].lease) && log[result].snapshot.validation.Some? && log[approved].snapshot.approval.Some?
  {
    approved := TraceApproval(log, applying);
    assert StandsOn(log[approved]);
    result := TraceValidation(log, approved);
  }

  lemma {:induction false} FindContainer(log: seq<Event>, result: nat) returns (made: nat, intent: nat, run: nat)
    requires Carried(log) && result < |log| && IsBound(log[result].lease) && log[result].kind == ValidationResult
    requires forall i :: 0 <= i < |log| ==> StandsOn(log[i])
    ensures made < intent < run < result
    ensures log[made].kind == CandidateMade && log[intent].kind == ValidationIntent && log[run].kind == ValidationRun
    ensures IsBound(log[run].lease) && log[intent].lease == Some(log[run].lease.value.(containerId := None))
    ensures log[made].snapshot.candidate.Some?
  {
    run := TraceRun(log, result);
    intent := TraceIntent(log, run);
    made := TraceCandidate(log, intent);
  }

  /** An applied session went through every step, in order, and all are about one candidate: the
      commit applied is the one that was made, run, found good and approved. */
  lemma {:induction false} AppliedProvenance(log: seq<Event>, session: Session) returns (t: Trail)
    requires IsLoadable(log, session) && Last(log).state == Applied
    ensures IsOrdered(t, |log| - 1) && HasKinds(t, log) && TellsOneStory(t, log)
  {
    LoadableIsCarried(log, session);
    forall i | 0 <= i < |log| ensures StandsOn(log[i]) {
      StandsAt(log, i, session);
    }
    t := FindTrail(log);
    TrailAgrees(log, t, session);
    StoryEnds(log, t, session);
    StoryHolds(log[t.intent].lease, log[t.run].lease, log[t.run].snapshot, Last(log).snapshot);
  }

  lemma {:induction false} StoryEnds(log: seq<Event>, t: Trail, session: Session)
    requires IsLoadable(log, session) && IsOrdered(t, |log|) && IsBound(log[t.run].lease)
    ensures LeaseMatches(log[t.run].lease.value, log[t.run].snapshot)
    ensures ShapeOk(Last(log).snapshot) && Last(log).state == Last(log).snapshot.state
  {
    LeaseAlwaysFits(log, t.run, session);
    StepAt(log, |log| - 1, session);
  }

  /** A well-shaped applied snapshot, and a lease for its candidate, tell one story. */
  lemma {:induction false} StoryHolds(intent: Option<Lease>, run: Option<Lease>, atRun: Snapshot, end: Snapshot)
    requires ShapeOk(end) && end.state == Applied && IsBound(run) && intent == Some(run.value.(containerId := None))
    requires LeaseMatches(run.value, atRun) && atRun.candidate == end.candidate
    ensures OneStory(intent, run, end.candidate, end.validation, end.approval, end.application)
  {
  }

  /** Write-once records make the steps of a trail agree. */
  lemma {:induction false} TrailAgrees(log: seq<Event>, t: Trail, session: Session)
    requires IsLoadable(log, session) && IsOrdered(t, |log|) && log[t.made].snapshot.candidate.Some?
    requires log[t.result].snapshot.validation.Some? && log[t.approved].snapshot.approval.Some?
    ensures log[t.run].snapshot.candidate == log[t.made].snapshot.candidate
    ensures Last(log).snapshot.candidate == log[t.made].snapshot.candidate
    ensures Last(log).snapshot.validation == log[t.result].snapshot.validation
    ensures Last(log).snapshot.approval == log[t.approved].snapshot.approval
  {
    var end := |log| - 1;
    HistoryExtends(log, t.made, t.run, session);
    HistoryExtends(log, t.made, end, session);
    HistoryExtends(log, t.result, end, session);
    HistoryExtends(log, t.approved, end, session);
  }

  // ----- tampering

  ghost predicate Collides(a: Event, b: Event, digests: Digests) {
    a != b && digests.ofEvent(a) == digests.ofEvent(b)
  }

  /** Two loadable logs that end in the same digest are the same log, event for event, or they
      exhibit two different events with one digest. */
  lemma {:induction false} SameDigestSameLog(a: seq<Event>, b: seq<Event>, session: Session)
    requires IsLoadable(a, session) && IsLoadable(b, session)
    requires Replay(a, session).value.digest == Replay(b, session).value.digest
    ensures a == b || exists x, y :: x in a && y in b && Collides(x, y, session.digests)
    decreases |a|
  {
    LastIsTied(a, session);
    LastIsTied(b, session);
    if Last(a) != Last(b) {
      assert Collides(Last(a), Last(b), session.digests);
    } else if |a| > 1 {
      SameDigestSameLog(Front(a), Front(b), session);
      if Front(a) != Front(b) {
        var x, y :| x in Front(a) && y in Front(b) && Collides(x, y, session.digests);
        assert x in a && y in b;
      } else {
        SameParts(a, b);
      }
    } else {
      SameParts(a, b);
    }
  }

  lemma {:induction false} SameParts(a: seq<Event>, b: seq<Event>)
    requires a != [] && b != [] && Last(a) == Last(b) && (Front(a) == Front(b) || |a| == |b| == 1)
    ensures a == b
  {
    assert a == Front(a) + [Last(a)] && b == Front(b) + [Last(b)];
  }

  // ----- what the records say of themselves

  /** Each record carries the digest of its own fields, taken together with those it builds on. */
  predicate CarriesDigests(s: Snapshot, d: Digests) {
    && (s.candidate.Some? ==>
         var c := s.candidate.value; c.candidateId == d.ofCandidate(s.requestSha256, c.commitOid, c.details))
    && (s.validation.Some? ==>
         && s.candidate.Some?
         && var v := s.validation.value; v.validationSha256 == d.ofValidation(s.candidate.value.candidateId, v.success, v.details))
    && (s.approval.Some? ==>
         && s.candidate.Some? && s.validation.Some?
         && var a := s.approval.value;
            a.approvalSha256 == d.ofApproval(s.candidate.value.candidateId, s.validation.value.validationSha256, a.details))
    && (s.application.Some? ==>
         && s.candidate.Some? && s.approval.Some?
         && var a := s.application.value;
            a.applicationSha256 == d.ofApplication(s.approval.value.approvalSha256, s.candidate.value.commitOid,
                                                   REF_PREFIX + s.candidate.value.candidateId, a.details))
    && (s.decision.Some? ==>
         var c := s.decision.value; c.decisionSha256 == d.ofDecision(s.state, c.candidateId, c.details))
  }

  /** So it is at every event of a loadable log, which is of this session and has its snapshot's time. */
  lemma {:induction false} RecordsCarryDigests(log: seq<Event>, i: nat, session: Session)
    requires IsLoadable(log, session) && i < |log|
    ensures CarriesDigests(log[i].snapshot, session.digests)
    ensures log[i].snapshot.sessionId == session.id && log[i].timestamp == log[i].snapshot.updatedAt
    decreases |log|
  {
    if i < |log| - 1 {
      RecordsCarryDigests(Front(log), i, session);
    }
  }
}

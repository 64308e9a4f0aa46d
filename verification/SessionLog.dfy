/** The event log of a session: full replay, the loader, and incremental append. */
module SessionLog {
  import opened LineSplitting
  import opened SessionModel

  datatype Loaded = Loaded(
    snapshot: Snapshot, sequence: nat, digest: string, timestamp: nat, preview: Option<string>, lease: Option<Lease>)

  /** What a log is replayed under. */
  datatype Session = Session(id: string, digests: Digests)

  function ZeroDigest(): string { seq(64, i => '0') }

  function LoadedOf(event: Event, session: Session): Loaded {
    Loaded(event.snapshot, event.sequence, session.digests.ofEvent(event), event.timestamp, event.preview, event.lease)
  }

  /** What is asked of an event by itself, given its place in the chain. */
  predicate IsChained(event: Event, sequence: nat, previous: string, session: Session) {
    && event.sequence == sequence && event.previous == previous
    && ShapeOk(event.snapshot) && RecordDigestsOk(event.snapshot, session.digests)
    && event.snapshot.sessionId == session.id && event.snapshot.state == event.state
    && event.timestamp == event.snapshot.updatedAt
  }

  predicate IsFirst(event: Event) {
    event.kind == SessionCreated && event.state == Created && event.preview.None? && event.lease.None?
  }

  /** What is asked of an event after another. */
  predicate Follows(before: Loaded, event: Event) {
    && PairOk(event.kind, before.snapshot.state, event.snapshot.state)
    && event.snapshot.createdAt == before.snapshot.createdAt && before.snapshot.updatedAt <= event.snapshot.updatedAt
    && LeaseUpdateOk(event.kind, before.snapshot, event.snapshot, before.lease, event.lease)
    && PreviewUpdateOk(event.kind, before.snapshot, event.snapshot, before.preview, event.preview)
    && SnapshotUpdateOk(event.kind, before.snapshot, event.snapshot)
  }

  function First(event: Event, session: Session): Option<Loaded> {
    if IsChained(event, 0, ZeroDigest(), session) && IsFirst(event) then Some(LoadedOf(event, session)) else None
  }

  function Next(before: Loaded, event: Event, session: Session): Option<Loaded> {
    if IsChained(event, before.sequence + 1, before.digest, session) && Follows(before, event) then Some(LoadedOf(event, session))
    else None
  }

  /** The state a log stands for; `None` when it is corrupt. */
  function Replay(log: seq<Event>, session: Session): Option<Loaded> {
    if log == [] then None
    else if |log| == 1 then First(log[0], session)
    else
      match Replay(Front(log), session)
      case None => None
      case Some(before) => Next(before, Last(log), session)
  }

  predicate IsLoadable(log: seq<Event>, session: Session) { Replay(log, session).Some? }

  /** `_load_event_chain` on the events in name order. */
  method LoadEventChain(log: seq<Event>, session: Session) returns (loaded: Option<Loaded>)
    ensures loaded == Replay(log, session)
  {
    loaded := None;
    var previousDigest := ZeroDigest();
    for sequence := 0 to |log|
      invariant sequence > 0 ==> loaded.Some? && previousDigest == loaded.value.digest && loaded.value.sequence == sequence - 1
      invariant sequence == 0 ==> previousDigest == ZeroDigest()
      invariant loaded == Replay(log[..sequence], session)
    {
      var event := log[sequence];
      assert Front(log[..sequence + 1]) == log[..sequence] && Last(log[..sequence + 1]) == event;
      var ok := IsChained(event, sequence, previousDigest, session)
        && if loaded.None? then IsFirst(event) else Follows(loaded.value, event);
      if !ok {
        NotLoadable(log, sequence + 1, session);
        return None;
      }
      loaded := Some(LoadedOf(event, session));
      previousDigest := loaded.value.digest;
    }
    assert log[..|log|] == log;
  }

  /** Every non-empty prefix of a loadable log is loadable. */
  lemma {:induction false} PrefixLoadable(log: seq<Event>, n: nat, session: Session)
    requires IsLoadable(log, session) && 0 < n <= |log|
    ensures IsLoadable(log[..n], session)
    decreases |log|
  {
    if n == |log| {
      assert log[..n] == log;
    } else {
      assert Front(log)[..n] == log[..n];
      PrefixLoadable(Front(log), n, session);
    }
  }

  lemma {:induction false} NotLoadable(log: seq<Event>, n: nat, session: Session)
    requires 0 < n <= |log| && !IsLoadable(log[..n], session)
    ensures !IsLoadable(log, session)
  {
    if IsLoadable(log, session) {
      PrefixLoadable(log, n, session);
    }
  }

  lemma {:induction false} ReplayMore(log: seq<Event>, event: Event, session: Session)
    requires IsLoadable(log, session)
    ensures Replay(log + [event], session) == Next(Replay(log, session).value, event, session)
  {
    assert Front(log + [event]) == log && Last(log + [event]) == event;
  }

  // ----- append

  /** What a caller asks to append. */
  datatype Request = Request(kind: Kind, snapshot: Snapshot, lease: Option<Lease>, clear: bool)

  /** The rules on the arguments alone, given the lease the session has. */
  predicate RequestOk(request: Request, session: Session, current: Option<Lease>) {
    && request.snapshot.sessionId == session.id
    && (request.lease.Some? ==>
         && !request.clear
         && request.kind in {ValidationIntent, ValidationRun}
         && (request.kind == ValidationIntent ==> request.snapshot.state == Validating)
         && (request.kind == ValidationRun ==> IsCarryState(request.snapshot.state)))
    && (request.lease.None? ==> request.kind !in {ValidationIntent, ValidationRun} && (request.clear ==> current.Some?))
  }

  function LeaseAfter(request: Request, current: Option<Lease>): Option<Lease> {
    if request.lease.Some? then request.lease else if request.clear then None else current
  }

  function PreviewAfter(request: Request, current: Option<string>, stored: Option<string>): Option<string> {
    if request.kind == CandidateMade && current.None? then stored else current
  }

  /** The event a request asks for; `stored` is the digest of the preview file, if readable. */
  function Proposed(before: Loaded, request: Request, stored: Option<string>): Event {
    Event(before.sequence + 1, before.digest, request.kind, request.snapshot.state, request.snapshot.updatedAt,
          request.snapshot, PreviewAfter(request, before.preview, stored), LeaseAfter(request, before.lease))
  }

  /** Whatever event replay would accept next, some request appends exactly that event. */
  lemma {:induction false} EveryEventCanBeAppended(before: Loaded, event: Event, session: Session) returns (request: Request, stored: Option<string>)
    requires Next(before, event, session).Some?
    ensures RequestOk(request, session, before.lease) && ShapeOk(request.snapshot)
    ensures Proposed(before, request, stored) == event
  {
    stored := event.preview;
    var lease := if event.kind in {ValidationIntent, ValidationRun} then event.lease else None;
    request := Request(event.kind, event.snapshot, lease, lease.None? && event.lease.None? && before.lease.Some?);
  }

  datatype Outcome = Appended(loaded: Loaded) | BadRequest | InvalidState | Corrupt

  datatype Judgement = Accepted(event: Event) | Refused(outcome: Outcome)

  /** The checks of `append` against the current state, in their order; `stored` is the digest
      of the preview file, if readable. */
  method Judge(current: Loaded, request: Request, stored: Option<string>, session: Session) returns (judgement: Judgement)
    requires ShapeOk(request.snapshot)
    ensures judgement.Accepted? <==>
      RequestOk(request, session, current.lease) && Next(current, Proposed(current, request, stored), session).Some?
    ensures judgement.Accepted? ==> judgement.event == Proposed(current, request, stored)
    ensures judgement.Refused? ==> judgement.outcome in {BadRequest, InvalidState}
    ensures judgement == Refused(InvalidState) ==> !PairOk(request.kind, current.snapshot.state, request.snapshot.state)
  {
    var snapshot := request.snapshot;
    if !RequestOk(request, session, current.lease) {
      return Refused(BadRequest);
    }
    var nextLease := LeaseAfter(request, current.lease);
    if snapshot.createdAt != current.snapshot.createdAt || snapshot.updatedAt < current.snapshot.updatedAt {
      return Refused(BadRequest);
    }
    if !PairOk(request.kind, current.snapshot.state, snapshot.state) {
      return Refused(InvalidState);
    }
    if !LeaseUpdateOk(request.kind, current.snapshot, snapshot, current.lease, nextLease) {
      return Refused(BadRequest);
    }
    var nextPreview := current.preview;
    if request.kind == CandidateMade && nextPreview.None? {
      if stored.None? {
        return Refused(BadRequest);
      }
      nextPreview := stored;
    }
    if !PreviewUpdateOk(request.kind, current.snapshot, snapshot, current.preview, nextPreview) {
      return Refused(BadRequest);
    }
    if !SnapshotUpdateOk(request.kind, current.snapshot, snapshot) || !RecordDigestsOk(snapshot, session.digests) {
      return Refused(BadRequest);
    }
    return Accepted(Event(current.sequence + 1, current.digest, request.kind, snapshot.state, snapshot.updatedAt,
                          snapshot, nextPreview, nextLease));
  }

  /** `_SessionStore`, holding the lock: the event files, the cache and the preview file. */
  class SessionStore {
    const session: Session
    const readOnly: bool
    var events: seq<Event>
    var cache: Option<Loaded>
    var preview: Option<string>

    constructor (session: Session, readOnly: bool, events: seq<Event>, cache: Option<Loaded>, preview: Option<string>)
      ensures this.session == session && this.readOnly == readOnly
      ensures this.events == events && this.cache == cache && this.preview == preview
    {
      this.session, this.readOnly := session, readOnly;
      this.events, this.cache, this.preview := events, cache, preview;
    }

    /** Replays the log; a writable store then holds a cache that equals the replay. */
    method Load() returns (loaded: Option<Loaded>)
      modifies this`cache
      ensures loaded == Replay(events, session)
      ensures cache == if loaded.Some? && !readOnly then loaded else old(cache)
    {
      loaded := LoadEventChain(events, session);
      if loaded.Some? && !readOnly && cache != loaded {
        cache := loaded;
      }
    }

    /** Accepts a request exactly when its arguments are allowed and the full replay of the log
        with the proposed event succeeds; then that log is stored, and its replay is both
        returned and cached. Otherwise no event is written. */
    method Append(request: Request) returns (outcome: Outcome)
      requires ShapeOk(request.snapshot)
      modifies this`events, this`cache
      ensures outcome.Appended? <==>
        && !readOnly && IsLoadable(old(events), session)
        && RequestOk(request, session, Replay(old(events), session).value.lease)
        && IsLoadable(old(events) + [Proposed(Replay(old(events), session).value, request, preview)], session)
      ensures outcome.Appended? ==>
        && events == old(events) + [Proposed(Replay(old(events), session).value, request, preview)]
        && Replay(events, session) == Some(outcome.loaded) && cache == Some(outcome.loaded)
      ensures !outcome.Appended? ==> events == old(events)
      ensures outcome.InvalidState? ==>
        IsLoadable(events, session) && !PairOk(request.kind, Replay(events, session).value.snapshot.state, request.snapshot.state)
      ensures outcome.Corrupt? ==> !IsLoadable(events, session)
      ensures readOnly || request.snapshot.sessionId != session.id || (request.lease.Some? && request.clear) ==>
        outcome.BadRequest? && cache == old(cache)
    {
      if readOnly {
        return BadRequest;
      }
      if request.snapshot.sessionId != session.id || (request.lease.Some? && request.clear) {
        return BadRequest;
      }
      var current := Load();
      if current.None? {
        return Corrupt;
      }
      ReplayMore(events, Proposed(current.value, request, preview), session);
      var judgement := Judge(current.value, request, preview, session);
      if judgement.Refused? {
        return judgement.outcome;
      }
      var event := judgement.event;
      events := events + [event];
      var after := LoadedOf(event, session);
      cache := Some(after);
      return Appended(after);
    }
  }
}

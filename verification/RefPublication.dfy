/** Absent-only publication of one repair ref by any number of concurrent publishers.

    Git's push with an all-zero lease is a compare-and-set that only succeeds on an absent
    ref. Its reply may be lost, and it may take effect after its client has given up. */
module RefPublication {
  import opened LineSplitting
  import opened PackedRefs
  import opened PackedRefScanner
  import opened PackedRefReader

  type Oid = seq<Byte>

  // ----- reading the ref: a loose file over the packed-refs file

  datatype StoredRef = StoredRef(packed: Option<seq<Byte>>, loose: Option<seq<Byte>>)

  /** `_parse_loose_repair_ref`: exactly one object ID and an LF. */
  function ParseLooseRepairRef(payload: seq<Byte>, expectedLength: nat): (r: Result<Oid>)
    ensures r.Ok? <==> exists raw :: IsOid(raw, expectedLength) && payload == raw + [LF]
    ensures forall raw :: IsOid(raw, expectedLength) && payload == raw + [LF] ==> r == Ok(Lower(raw))
  {
    if payload != [] && Last(payload) == LF && IsOid(Front(payload), expectedLength) then
      assert payload == Front(payload) + [LF];
      Ok(Lower(Front(payload)))
    else
      assert forall raw :: payload == raw + [LF] ==> raw == Front(payload);
      Invalid
  }

  ghost predicate PackedReadsAs(packed: Option<seq<Byte>>, layout: Layout, target: seq<Byte>, oid: Option<Oid>) {
    match packed
    case None => oid.None?
    case Some(data) => Acceptable(data, layout, target) && IsLookup(Bodies(data), layout, target, oid)
  }

  /** Both files must be well formed; the loose one wins. */
  ghost predicate ReadsAs(stored: StoredRef, layout: Layout, target: seq<Byte>, current: Option<Oid>) {
    exists packedOid ::
      && PackedReadsAs(stored.packed, layout, target, packedOid)
      && LooseReadsAs(stored.loose, layout, packedOid, current)
  }

  predicate LooseReadsAs(loose: Option<seq<Byte>>, layout: Layout, packedOid: Option<Oid>, current: Option<Oid>) {
    match loose
    case None => current == packedOid
    case Some(payload) =>
      var parsed := ParseLooseRepairRef(payload, layout.expectedLength);
      parsed.Ok? && current == Some(parsed.value)
  }

  lemma {:induction false} PackedReadsAsOne(packed: Option<seq<Byte>>, layout: Layout, target: seq<Byte>, f: Option<Oid>, g: Option<Oid>)
    requires PackedReadsAs(packed, layout, target, f) && PackedReadsAs(packed, layout, target, g)
    ensures f == g
  {
    if packed.Some? && f.Some? && g.Some? {
      var bodies := Bodies(packed.value);
      var i :| 0 <= i < |bodies| && IsTarget(bodies[i], layout, target) && f.value == Lower(bodies[i][..layout.expectedLength]);
      var j :| 0 <= j < |bodies| && IsTarget(bodies[j], layout, target) && g.value == Lower(bodies[j][..layout.expectedLength]);
      assert i == j;
    }
  }

  /** `_read_repair_ref_at`, on the files' contents. */
  method ReadRepairRef(stored: StoredRef, ref: string, objectFormat: string) returns (r: Result<Option<Oid>>)
    requires IsScanInput(ref, objectFormat)
    ensures
      var layout := Layout(HEADER, OBJECT_FORMAT_LENGTHS[objectFormat]);
      && (r.Ok? ==> ReadsAs(stored, layout, ref, r.value))
      && (r.Invalid? ==> forall current :: !ReadsAs(stored, layout, ref, current))
  {
    var layout := Layout(HEADER, OBJECT_FORMAT_LENGTHS[objectFormat]);
    var packedOid: Option<Oid> := None;
    if stored.packed.Some? {
      assert Flatten([stored.packed.value]) == stored.packed.value;
      var scanned := ScanPackedRepairRef([stored.packed.value], ref, objectFormat);
      if scanned.Invalid? {
        return Invalid;
      }
      packedOid := scanned.value.0;
    }
    assert PackedReadsAs(stored.packed, layout, ref, packedOid);
    if stored.loose.Some? {
      var loose := ParseLooseRepairRef(stored.loose.value, layout.expectedLength);
      return if loose.Ok? then Ok(Some(loose.value)) else Invalid;
    }
    return Ok(packedOid);
  }

  /** Moving a loose ref into the packed file, as `git pack-refs` does, does not change what is read. */
  lemma {:induction false} PackingKeepsTheValue(loose: StoredRef, packed: StoredRef, raw: Oid, layout: Layout, target: seq<Byte>, current: Option<Oid>)
    requires IsOid(raw, layout.expectedLength) && loose.loose == Some(raw + [LF]) && ReadsAs(loose, layout, target, current)
    requires packed.loose == None && packed.packed.Some? && Acceptable(packed.packed.value, layout, target)
    requires exists i ::
      && 0 <= i < |Bodies(packed.packed.value)| && IsTarget(Bodies(packed.packed.value)[i], layout, target)
      && Bodies(packed.packed.value)[i][..layout.expectedLength] == raw
    ensures forall other :: ReadsAs(packed, layout, target, other) <==> other == current
  {
    assert PackedReadsAs(packed.packed, layout, target, Some(Lower(raw)));
    assert current == Some(Lower(raw));
    forall other | ReadsAs(packed, layout, target, other) ensures other == current {
      PackedReadsAsOne(packed.packed, layout, target, other, Some(Lower(raw)));
    }
  }

  // ----- the publication protocol

  datatype Outcome = Published | AlreadyPresent | RefConflict | PublicationFailed

  predicate IsSuccess(outcome: Outcome) { outcome == Published || outcome == AlreadyPresent }

  /** The verdict of the read before the push; None means "absent, go on and push". */
  function FirstReadVerdict(current: Option<Oid>, commit: Oid): Option<Outcome> {
    match current
    case None => None
    case Some(oid) => Some(if oid == commit then AlreadyPresent else RefConflict)
  }

  /** The verdict of the read after the push. */
  function ReadBackVerdict(readBack: Option<Oid>, commit: Oid, pushSucceeded: bool): Outcome {
    match readBack
    case None => PublicationFailed
    case Some(oid) => if oid != commit then RefConflict else if pushSucceeded then Published else AlreadyPresent
  }

  datatype Phase = Begun | Absent | Pushing | Replied(pushSucceeded: bool) | Ended(outcome: Outcome)

  datatype Publisher = Publisher(commit: Oid, phase: Phase)

  /** `pending` holds the pushes the server may still carry out, whatever became of their clients. */
  datatype World = World(ref: Option<Oid>, publishers: map<nat, Publisher>, pending: set<nat>)

  datatype Step =
    | FirstRead(p: nat)
    | StartPush(p: nat)
    | Land(p: nat)
    | Reply(p: nat, pushSucceeded: bool)
    | ReadBack(p: nat)
    | Fail(p: nat)

  function SetPhase(w: World, p: nat, phase: Phase): World
    requires p in w.publishers
  {
    w.(publishers := w.publishers[p := w.publishers[p].(phase := phase)])
  }

  /** A push is an absent-only compare-and-set. */
  function Push(ref: Option<Oid>, commit: Oid): Option<Oid> {
    if ref.None? then Some(commit) else ref
  }

  predicate Enabled(w: World, step: Step) {
    step.p in w.publishers &&
    var phase := w.publishers[step.p].phase;
    match step
    case FirstRead(_) => phase == Begun
    case StartPush(_) => phase == Absent
    case Land(p) => p in w.pending
    case Reply(_, _) => phase == Pushing
    case ReadBack(_) => phase.Replied?
    case Fail(_) => !phase.Ended?
  }

  function Next(w: World, step: Step): World
    requires Enabled(w, step)
  {
    var publisher := w.publishers[step.p];
    match step
    case FirstRead(p) =>
      var verdict := FirstReadVerdict(w.ref, publisher.commit);
      SetPhase(w, p, if verdict.None? then Absent else Ended(verdict.value))
    case StartPush(p) => SetPhase(w, p, Pushing).(pending := w.pending + {p})
    case Land(p) => w.(ref := Push(w.ref, publisher.commit), pending := w.pending - {p})
    case Reply(p, pushSucceeded) => SetPhase(w, p, Replied(pushSucceeded))
    case ReadBack(p) => SetPhase(w, p, Ended(ReadBackVerdict(w.ref, publisher.commit, publisher.phase.pushSucceeded)))
    case Fail(p) => SetPhase(w, p, Ended(PublicationFailed))
  }

  predicate IsRun(w: World, steps: seq<Step>)
    decreases steps
  {
    steps == [] || (Enabled(w, steps[0]) && IsRun(Next(w, steps[0]), steps[1..]))
  }

  function After(w: World, steps: seq<Step>): World
    requires IsRun(w, steps)
    decreases steps
  {
    if steps == [] then w else After(Next(w, steps[0]), steps[1..])
  }

  /** What every reachable world satisfies: an ended publisher told the truth about the ref. */
  predicate Truthful(w: World) {
    forall p :: p in w.publishers && w.publishers[p].phase.Ended? ==>
      var Publisher(commit, phase) := w.publishers[p];
      && (IsSuccess(phase.outcome) ==> w.ref == Some(commit))
      && (phase.outcome == RefConflict ==> w.ref.Some? && w.ref != Some(commit))
  }

  predicate IsInitial(w: World) {
    w.pending == {} && forall p :: p in w.publishers ==> w.publishers[p].phase == Begun
  }

  /** A later world: a ref once set keeps its value, and a publisher's end is final. */
  predicate Follows(w: World, later: World) {
    && (w.ref.Some? ==> later.ref == w.ref)
    && later.publishers.Keys == w.publishers.Keys
    && (forall p :: p in w.publishers ==>
         && later.publishers[p].commit == w.publishers[p].commit
         && (w.publishers[p].phase.Ended? ==> later.publishers[p].phase == w.publishers[p].phase))
    && (later.ref != w.ref ==> exists p :: p in w.publishers && later.ref == Some(w.publishers[p].commit))
  }

  lemma {:induction false} StepKeeps(w: World, step: Step)
    requires Enabled(w, step) && Truthful(w)
    ensures Truthful(Next(w, step)) && Follows(w, Next(w, step))
  {
  }

  /** Over every run: truth is kept, and the ref is set at most once, to a publisher's commit. */
  lemma {:induction false} RunKeeps(w: World, steps: seq<Step>)
    requires IsRun(w, steps) && Truthful(w)
    ensures Truthful(After(w, steps)) && Follows(w, After(w, steps))
    decreases steps
  {
    if steps != [] {
      var next := Next(w, steps[0]);
      StepKeeps(w, steps[0]);
      RunKeeps(next, steps[1..]);
      var last := After(next, steps[1..]);
      if last.ref != next.ref {
        var p :| p in next.publishers && last.ref == Some(next.publishers[p].commit);
        assert w.publishers[p].commit == next.publishers[p].commit;
      }
    }
  }

  predicate EndedWith(w: World, p: nat, outcome: Outcome) {
    p in w.publishers && w.publishers[p].phase == Ended(outcome)
  }

  /** Publishers of different commits never both succeed, however they are interleaved, and a
      success stays true: after any further steps the ref still names the winner's commit. */
  lemma {:induction false} SuccessIsExclusive(w: World, steps: seq<Step>, more: seq<Step>, p: nat, q: nat, outcome: Outcome, other: Outcome)
    requires IsInitial(w) && IsRun(w, steps) && IsRun(After(w, steps), more)
    requires p in w.publishers && q in w.publishers
    requires EndedWith(After(w, steps), p, outcome) && IsSuccess(outcome)
    requires EndedWith(After(After(w, steps), more), q, other)
    ensures After(After(w, steps), more).ref == Some(w.publishers[p].commit)
    ensures IsSuccess(other) ==> w.publishers[q].commit == w.publishers[p].commit
    ensures other == RefConflict ==> w.publishers[q].commit != w.publishers[p].commit
  {
    RunKeeps(w, steps);
    RunKeeps(After(w, steps), more);
  }

  /** A publisher that reads back after its own push has landed never reports "failed": it
      either succeeded or met a real conflict. */
  lemma {:induction false} LandedPushIsDecided(w: World, p: nat, between: seq<Step>)
    requires Truthful(w) && Enabled(w, Land(p)) && IsRun(Next(w, Land(p)), between)
    requires Enabled(After(Next(w, Land(p)), between), ReadBack(p))
    ensures exists outcome ::
      && outcome != PublicationFailed && (w.ref.None? ==> IsSuccess(outcome))
      && EndedWith(Next(After(Next(w, Land(p)), between), ReadBack(p)), p, outcome)
  {
    StepKeeps(w, Land(p));
    RunKeeps(Next(w, Land(p)), between);
    var before := After(Next(w, Land(p)), between);
    var publisher := before.publishers[p];
    assert EndedWith(Next(before, ReadBack(p)), p, ReadBackVerdict(before.ref, publisher.commit, publisher.phase.pushSucceeded));
  }

  /** How far a publisher has come on the way over a push. */
  predicate HasPushed(phase: Phase) { phase.Pushing? || phase.Replied? }

  /** Who ends how: "published" is said only by a publisher whose push replied with success, and one that
      pushed says "already present" only when its push replied otherwise. */
  lemma {:induction false} EndTellsReply(w: World, steps: seq<Step>, p: nat)
    requires IsRun(w, steps) && p in w.publishers
    ensures p in After(w, steps).publishers
    ensures
      var (first, last) := (w.publishers[p].phase, After(w, steps).publishers[p].phase);
      && (last == Ended(Published) ==> first in {Ended(Published), Replied(true)} || Reply(p, true) in steps)
      && (last == Ended(AlreadyPresent) && (HasPushed(first) || StartPush(p) in steps) ==> first == Replied(false) || Reply(p, false) in steps)
      && (first.Ended? ==> last == first && StartPush(p) !in steps)
    decreases steps
  {
    if steps != [] {
      EndTellsReply(Next(w, steps[0]), steps[1..], p);
      assert steps == [steps[0]] + steps[1..];
    }
  }

  /** Over every run from the beginning. */
  lemma {:induction false} PublishedByPush(w: World, steps: seq<Step>, p: nat)
    requires IsInitial(w) && IsRun(w, steps) && p in w.publishers
    ensures EndedWith(After(w, steps), p, Published) ==> Reply(p, true) in steps
    ensures EndedWith(After(w, steps), p, AlreadyPresent) && StartPush(p) in steps ==> Reply(p, false) in steps
  {
    EndTellsReply(w, steps, p);
  }

  lemma {:induction false} StepThen(w: World, step: Step, rest: seq<Step>)
    requires Enabled(w, step) && IsRun(Next(w, step), rest)
    ensures IsRun(w, [step] + rest) && After(w, [step] + rest) == After(Next(w, step), rest)
  {
    assert ([step] + rest)[1..] == rest;
  }

  /** The steps of a push, with what becomes of it. */
  function PushSteps(p: nat, lands: bool, succeeds: bool): seq<Step> {
    [StartPush(p)] + ((if lands then [Land(p)] else []) + ([Reply(p, succeeds)] + ([ReadBack(p)] + [])))
  }

  lemma {:induction false} PushEnds(w: World, p: nat, lands: bool, succeeds: bool)
    requires p in w.publishers && w.publishers[p].phase == Absent && w.ref.None?
    ensures
      var steps := PushSteps(p, lands, succeeds);
      && IsRun(w, steps) && After(w, steps).ref == (if lands then Some(w.publishers[p].commit) else None)
      && EndedWith(After(w, steps), p, if !lands then PublicationFailed else if succeeds then Published else AlreadyPresent)
  {
    var pushed := Next(w, StartPush(p));
    var landed := if lands then Next(pushed, Land(p)) else pushed;
    var replied := Next(landed, Reply(p, succeeds));
    var last := [ReadBack(p)] + [];
    StepThen(replied, ReadBack(p), []);
    StepThen(landed, Reply(p, succeeds), last);
    if lands {
      StepThen(pushed, Land(p), [Reply(p, succeeds)] + last);
    } else {
      assert [] + ([Reply(p, succeeds)] + last) == [Reply(p, succeeds)] + last;
    }
    StepThen(w, StartPush(p), (if lands then [Land(p)] else []) + ([Reply(p, succeeds)] + last));
  }

  /** Every verdict happens. With an absent ref, a publisher whose push lands sets it and says "published" or
      "already present" as its push replied; if it does not land, it fails. Where the ref is set, the first
      read decides. */
  lemma {:induction false} EveryVerdictHappens(w: World, p: nat, lands: bool, succeeds: bool)
    requires p in w.publishers && w.publishers[p].phase == Begun
    ensures
      var steps := [FirstRead(p)] + (if w.ref.None? then PushSteps(p, lands, succeeds) else []);
      var commit := w.publishers[p].commit;
      && IsRun(w, steps) && After(w, steps).ref == (if w.ref.None? && lands then Some(commit) else w.ref)
      && EndedWith(After(w, steps), p,
           if w.ref.Some? then (if w.ref == Some(commit) then AlreadyPresent else RefConflict)
           else if !lands then PublicationFailed
           else if succeeds then Published else AlreadyPresent)
  {
    var read := Next(w, FirstRead(p));
    if w.ref.None? {
      PushEnds(read, p, lands, succeeds);
      StepThen(w, FirstRead(p), PushSteps(p, lands, succeeds));
    } else {
      StepThen(w, FirstRead(p), []);
    }
  }

  // ----- the publisher as the source runs it

  class RefStore {
    var ref: Option<Oid>
    /** How often a check or a read has raised, and the exit statuses of the pushes. */
    ghost var refusals: nat
    ghost var pushes: seq<bool>

    /** Other publishers and late pushes may run at any moment; they can only set an absent ref. */
    method OthersRun()
      modifies this`ref
      ensures old(ref).Some? ==> ref == old(ref)
    {
      if * {
        var commit: Oid := *;
        ref := Push(ref, commit);
      }
    }

    /** The push may or may not take effect, and its exit status need not say which. */
    method PushAbsentOnly(commit: Oid) returns (pushSucceeded: bool)
      modifies this
      ensures old(ref).Some? ==> ref == old(ref)
      ensures ref == old(ref) || ref == Some(commit)
      ensures pushes == old(pushes) + [pushSucceeded] && refusals == old(refusals)
    {
      if * {
        ref := Push(ref, commit);
      }
      pushSucceeded := *;
      pushes := pushes + [pushSucceeded];
    }

    /** The identity, storage, reflog and commit checks, and the reads themselves, may raise. */
    method Check() returns (ok: bool)
      modifies this
      ensures old(ref).Some? ==> ref == old(ref)
      ensures pushes == old(pushes) && refusals == if ok then old(refusals) else old(refusals) + 1
    {
      OthersRun();
      ok := *;
      if !ok {
        refusals := refusals + 1;
      }
    }

    /** `_publish_repair_ref`; `None` exactly when a check or a read raises. A returned success or conflict
        is true of the ref at the end, a ref that was set decides the verdict, and no run ever changes
        a ref that was set. A ref read as absent is pushed once; what is read back and the exit status of
        that push decide. */
    method PublishRepairRef(commit: Oid) returns (outcome: Option<Outcome>, ghost first: Option<Oid>, ghost readBack: Option<Oid>)
      modifies this
      ensures old(ref).Some? ==> ref == old(ref)
      ensures outcome.Some? && IsSuccess(outcome.value) ==> ref == Some(commit)
      ensures outcome == Some(RefConflict) ==> ref.Some? && ref != Some(commit)
      ensures outcome in {Some(Published), Some(PublicationFailed)} ==> old(ref).None?
      ensures old(ref) == Some(commit) ==> outcome in {None, Some(AlreadyPresent)}
      ensures old(ref).Some? && old(ref) != Some(commit) ==> outcome in {None, Some(RefConflict)}
      ensures outcome.None? <==> refusals > old(refusals)
      ensures outcome.Some? ==> (old(ref).Some? ==> first == old(ref)) && (first.Some? ==> first == ref) && (readBack.Some? ==> readBack == ref)
      ensures outcome.Some? && first.Some? ==>
        outcome.value == (if first == Some(commit) then AlreadyPresent else RefConflict) && pushes == old(pushes)
      ensures outcome.Some? && first.None? ==>
        && |pushes| == |old(pushes)| + 1 && old(pushes) <= pushes
        && (outcome.value == Published <==> readBack == Some(commit) && Last(pushes))
        && (outcome.value == AlreadyPresent <==> readBack == Some(commit) && !Last(pushes))
        && (outcome.value == RefConflict <==> readBack !in {None, Some(commit)})
        && (outcome.value == PublicationFailed <==> readBack.None?)
    {
      outcome, first, readBack := None, None, None;
      var ok := Check();
      if !ok {
        return;
      }
      first := ref;
      var verdict := FirstReadVerdict(ref, commit);
      ok := Check();
      if !ok {
        return;
      }
      if verdict.Some? {
        outcome := verdict;
        return;
      }
      var pushSucceeded := PushAbsentOnly(commit);
      ok := Check();
      if !ok {
        return;
      }
      var current := ref;
      readBack := current;
      ok := Check();
      if ok {
        outcome := Some(ReadBackVerdict(current, commit, pushSucceeded));
      }
    }
  }
}

/** One validation run in a container: over every outcome of Docker and every exception, the
    container is never left without a lease that owes its removal. */
module SandboxRun {
  import opened LineSplitting

  // ----- Docker, as a run can know it

  /** This run's container, and a create that was sent and may still take effect. */
  datatype Docker = Docker(container: Option<string>, pending: bool)

  /** What the daemon and other processes may do between two of our steps: a pending create takes
      effect or is dropped, a container disappears. */
  predicate DockerMoves(before: Docker, after: Docker) {
    || after == before
    || (before.pending && after.container.Some? && !after.pending)
    || (after.container.None? && (after.pending ==> before.pending))
  }

  datatype ProcessResult<T> = ProcessResult(returnCode: int, timedOut: bool, outputLimit: bool, quietStderr: bool, output: T)

  /** A Docker command raises a repair error, is interrupted by any other exception, or exits. */
  datatype Call<T> = RaisedRepairError | Interrupted | Exited(result: ProcessResult<T>)

  /** `_docker_command_succeeded` */
  predicate Succeeded<T>(result: ProcessResult<T>) {
    result.returnCode == 0 && !result.timedOut && !result.outputLimit && result.quietStderr
  }

  /** The client exited by itself: the daemon has answered, so a create has settled. */
  predicate HasSettled<T>(result: ProcessResult<T>) {
    result.returnCode >= 0 && !result.timedOut && !result.outputLimit
  }

  /** Whether a container seen by `inspect` carries this run's labels. */
  datatype Seen = Ours(id: string) | NotOurs

  datatype Listed = Nothing | ListedId(id: string) | Garbled

  // ----- the session's side

  datatype LeaseState = NoLease | Intent | Run(containerId: string)

  /** What a callback into the session answers; an exception may come before or after its effect. */
  datatype Answer = Yes | No | Raised

  /** The container, if it exists or may yet, is owed by a lease, and a bound lease names it. */
  predicate NoOrphan(docker: Docker, lease: LeaseState) {
    && (docker.container.Some? || docker.pending ==> lease != NoLease)
    && (docker.pending ==> docker.container.None?)
    && (lease.Run? ==> !docker.pending && docker.container in {None, Some(lease.containerId)})
  }

  /** `validating` is the state VALIDATING; it is false once the session has left it. */
  datatype View = View(docker: Docker, lease: LeaseState, validating: bool)

  /** What may change between two steps of the run. Another process may end the session, and
      clear a bound lease once the session has ended and the container is gone. */
  predicate WorldMoves(before: View, after: View) {
    && DockerMoves(before.docker, after.docker)
    && (after.validating ==> before.validating)
    && (after.lease == before.lease || (before.lease.Run? && !after.validating && after.docker.container.None? && after.lease == NoLease))
  }

  /** The exceptions the caller tells apart: the run was not accepted, its result came too late, an
      error to be recorded, and an interruption that passes through. */
  datatype Cause = RunRejected | LateResult | RepairFailure | Interruption

  /** One thing that a run is told: the outcome of its own checks, of a Docker command, or of a callback. */
  datatype Exchange =
    | Checked(failed: Option<Cause>)
    | CreateTried(call: Call<Option<string>>)
    | Inspected(seen: Call<Seen>)
    | ListRead(listed: Call<Listed>)
    | Removal(id: string, answer: Answer)
    | IntentAsked(answer: Answer)
    | RunAsked(id: string, answer: Answer)
    | IntentDropped(answer: Answer)
    | RunDropped(id: string, answer: Answer)

  class World {
    /** Whether a create client that exits by itself has settled its effect. */
    const settles: bool
    var docker: Docker
    var lease: LeaseState
    var validating: bool
    /** All a run has been told so far. */
    ghost var told: seq<Exchange>

    function Now(): View
      reads this
    {
      View(docker, lease, validating)
    }

    predicate Safe()
      reads this
    {
      NoOrphan(docker, lease)
    }

    constructor (settles: bool)
      ensures this.settles == settles
      ensures Now() == View(Docker(None, false), NoLease, true) && Safe() && told == []
    {
      this.settles := settles;
      docker, lease, validating, told := Docker(None, false), NoLease, true, [];
    }

    /** Whatever happens between two steps; the run must be safe whenever it happens, so a process
        that dies there is safe too. */
    method Interfere()
      requires Safe()
      modifies this
      ensures Safe() && WorldMoves(old(Now()), Now()) && told == old(told)
    {
      if docker.pending {
        if * {
          var id: string := *;
          docker := Docker(Some(id), false);
        }
      }
      if * {
        docker := docker.(container := None);
      }
      if * {
        validating := false;
      }
      if lease.Run? && !validating && docker.container.None? {
        if * {
          lease := NoLease;
        }
      }
    }

    /** The run's own checks: assets, mounts, the created container, the start, the checkpoint. Before
        there is a container, none finds the result too late. */
    method Check(late: bool) returns (failed: Option<Cause>)
      requires Safe()
      modifies this
      ensures Safe() && WorldMoves(old(Now()), Now()) && told == old(told) + [Checked(failed)]
      ensures failed.Some? ==> failed.value in {RepairFailure, Interruption} || (late && failed.value == LateResult)
    {
      Interfere();
      failed := None;
      if * {
        failed := Some(RepairFailure);
      } else if * {
        failed := Some(Interruption);
      } else if * {
        failed := if late then Some(LateResult) else None;
      }
      told := told + [Checked(failed)];
    }

    /** `docker create`. An id it prints is the container's; if such clients settle, nothing more will
        happen once the client has exited by itself; otherwise the effect may still be to come. */
    method Create() returns (call: Call<Option<string>>)
      requires Safe() && lease == Intent && docker == Docker(None, false)
      modifies this
      ensures Safe() && lease == Intent && (validating ==> old(validating))
      ensures call.Exited? && call.result.returnCode == 0 && call.result.output.Some? ==>
        !docker.pending && docker.container in {None, call.result.output}
      ensures call.Exited? && HasSettled(call.result) && settles ==> !docker.pending
      ensures told == old(told) + [CreateTried(call)]
    {
      Interfere();
      var id: string := *;
      if * {
        docker := Docker(None, true);
      } else if * {
        docker := Docker(Some(id), false);
      }
      var result: ProcessResult<Option<string>> := *;
      if docker.pending {
        if * {
          call := RaisedRepairError;
        } else if * {
          call := Interrupted;
        } else {
          result := result.(output := None);
          call := if HasSettled(result) && settles then RaisedRepairError else Exited(result);
        }
      } else if * {
        result := result.(output := if docker.container.Some? && result.output.Some? then docker.container else None);
        call := Exited(result);
      } else if * {
        call := RaisedRepairError;
      } else {
        call := Interrupted;
      }
      told := told + [CreateTried(call)];
    }

    /** `docker inspect` by name: a container of ours it shows is there. */
    method Inspect() returns (call: Call<Seen>)
      requires Safe()
      modifies this
      ensures Safe() && WorldMoves(old(Now()), Now())
      ensures call.Exited? && Succeeded(call.result) && call.result.output.Ours? ==> docker.container == Some(call.result.output.id)
      ensures told == old(told) + [Inspected(call)]
    {
      Interfere();
      var result: ProcessResult<Seen> := *;
      if * {
        call := RaisedRepairError;
      } else if * {
        call := Interrupted;
      } else if docker.container.Some? {
        call := Exited(result.(output := Ours(docker.container.value)));
      } else {
        call := Exited(result.(output := NotOurs));
      }
      told := told + [Inspected(call)];
    }

    /** `docker ls` by name: an empty answer means there is no container now. */
    method List() returns (call: Call<Listed>)
      requires Safe()
      modifies this
      ensures Safe() && WorldMoves(old(Now()), Now())
      ensures call.Exited? && Succeeded(call.result) && call.result.output == Nothing ==> docker.container.None?
      ensures told == old(told) + [ListRead(call)]
    {
      Interfere();
      var result: ProcessResult<Listed> := *;
      if * {
        call := RaisedRepairError;
      } else if * {
        call := Interrupted;
      } else if docker.container.Some? && result.output == Nothing {
        call := Exited(result.(output := ListedId(docker.container.value)));
      } else {
        call := Exited(result);
      }
      told := told + [ListRead(call)];
    }

    /** `_remove_invocation_container`: if it says so, the container is gone. */
    method Remove(id: string) returns (answer: Answer)
      requires Safe() && docker.container in {None, Some(id)} && !docker.pending
      modifies this
      ensures Safe() && WorldMoves(old(Now()), Now())
      ensures answer == Yes ==> docker == Docker(None, false)
      ensures told == old(told) + [Removal(id, answer)]
    {
      Interfere();
      if * {
        docker := docker.(container := None);
        answer := Yes;
      } else if * {
        answer := No;
      } else {
        answer := Raised;
      }
      told := told + [Removal(id, answer)];
    }

    // ----- callbacks into the session

    /** `_register_validation_intent`, which meets the session as `found`. */
    method RegisterIntent() returns (answer: Answer, ghost found: View)
      requires Safe() && docker == Docker(None, false)
      modifies this
      ensures Safe() && docker == Docker(None, false)
      ensures answer == Yes ==> lease == Intent
      ensures answer == No ==> lease == old(lease) || lease == NoLease
      ensures WorldMoves(old(Now()), found) && told == old(told) + [IntentAsked(answer)]
      ensures answer != Raised ==> (answer == Yes <==> found.validating && found.lease == NoLease)
      ensures answer == No ==> Now() == found
    {
      Interfere();
      found := Now();
      answer := Raised;
      if * {
        answer := if validating && lease == NoLease then Yes else No;
      }
      if validating && lease == NoLease {
        if answer == Yes {
          lease := Intent;
        } else if * {
          lease := Intent;
        }
      }
      told := told + [IntentAsked(answer)];
    }

    /** `_register_validation_run`: binds the container to the intent, even when the session has
        ended, but says yes only while validating. */
    method RegisterRun(id: string) returns (answer: Answer, ghost found: View)
      requires Safe() && !docker.pending && docker.container in {None, Some(id)}
      modifies this
      ensures Safe() && !docker.pending && docker.container in {None, Some(id)}
      ensures lease in {old(lease), NoLease, Run(id)} && (lease == NoLease ==> old(lease) != Intent)
      ensures answer == Yes ==> lease == Run(id) && validating && old(lease) == Intent
      ensures answer == No && old(lease) == Intent ==> lease == Run(id) && !validating
      ensures old(lease) != Intent ==> lease in {old(lease), NoLease} && answer != Yes
      ensures WorldMoves(old(Now()), found) && told == old(told) + [RunAsked(id, answer)]
      ensures answer != Raised ==> (answer == Yes <==> found.validating && found.lease == Intent)
      ensures answer == No ==> Now() == found.(lease := if found.lease == Intent then Run(id) else found.lease)
    {
      Interfere();
      found := Now();
      answer := Raised;
      if * {
        answer := if validating && lease == Intent then Yes else No;
      }
      if lease == Intent {
        if answer != Raised {
          lease := Run(id);
        } else if * {
          lease := Run(id);
        }
      }
      told := told + [RunAsked(id, answer)];
    }

    /** `_release_validation_intent`: only the intent itself is ever dropped here. */
    method ReleaseIntent() returns (answer: Answer)
      requires Safe()
      modifies this
      ensures (old(lease) == Intent ==> old(docker) == Docker(None, false)) ==> Safe()
      ensures DockerMoves(old(docker), docker)
      ensures lease in {old(lease), NoLease} && (answer == Yes ==> lease == NoLease)
      ensures lease != old(lease) ==> old(lease) == Intent || (old(lease).Run? && !validating && docker.container.None?)
      ensures answer == No ==> old(lease).Run? && lease == old(lease)
      ensures told == old(told) + [IntentDropped(answer)]
    {
      Interfere();
      answer := Raised;
      if * {
        answer := if lease.Run? then No else Yes;
      }
      if lease == Intent {
        if answer == Yes {
          lease := NoLease;
        } else if * {
          lease := NoLease;
        }
      }
      told := told + [IntentDropped(answer)];
    }

    /** `_release_validation_run`: only for a session that has ended; it meets the session as `found`. */
    method ReleaseRun(id: string) returns (answer: Answer, ghost found: View)
      requires Safe() && (lease == Run(id) ==> docker == Docker(None, false))
      modifies this
      ensures Safe() && DockerMoves(old(docker), docker)
      ensures lease in {old(lease), NoLease} && (old(lease) == Intent ==> lease == Intent)
      ensures lease != old(lease) ==> old(lease).Run? && !validating
      ensures answer == Yes ==> lease == NoLease
      ensures answer == No ==> lease == old(lease) && (lease == Run(id) ==> validating)
      ensures WorldMoves(old(Now()), found) && told == old(told) + [RunDropped(id, answer)]
      ensures answer != Raised ==> (answer == Yes <==> found.lease == NoLease || (found.lease == Run(id) && !found.validating))
      ensures answer == No ==> Now() == found
    {
      Interfere();
      found := Now();
      var mayDrop := lease == Run(id) && !validating;
      answer := Raised;
      if * {
        answer := if lease == NoLease || mayDrop then Yes else No;
      }
      if mayDrop {
        if answer == Yes {
          lease := NoLease;
        } else if * {
          lease := NoLease;
        }
      }
      told := told + [RunDropped(id, answer)];
    }
  }

  /** Letting go of the lease is safe, whatever happens next, exactly when the container is gone
      and no create is still to take effect. */
  lemma {:induction false} ReleaseIsSafe(docker: Docker)
    ensures (forall later :: DockerMoves(docker, later) ==> NoOrphan(later, NoLease)) <==> docker == Docker(None, false)
  {
    if docker.pending {
      var late := Docker(Some(""), false);
      assert DockerMoves(docker, late) && !NoOrphan(late, NoLease);
    } else if docker.container.Some? {
      assert DockerMoves(docker, docker) && !NoOrphan(docker, NoLease);
    }
  }

  /** What an empty listing does to the lease of a run whose create failed. */
  function LeaseAfterEmptyListing(absenceIsAuthoritative: bool): LeaseState {
    if absenceIsAuthoritative then NoLease else Intent
  }

  /** Inspection and listing find no container, while the world moves on. */
  predicate IsListedEmpty(before: View, listed: View) { WorldMoves(before, listed) && listed.docker.container.None? }

  /** The handler then keeps the intent or lets it go, and the world moves on. */
  predicate IsHandled(listed: View, after: View, absenceIsAuthoritative: bool) {
    WorldMoves(listed.(lease := LeaseAfterEmptyListing(absenceIsAuthoritative)), after)
  }

  /** A run whose create failed, handled after an empty listing: every way this can go ends without an
      orphan exactly when a client that exited by itself has left nothing to come. A client that lost
      its daemon and exited with an error would orphan a container that is made later. */
  lemma {:induction false} SettlingIsNeeded<T>(result: ProcessResult<T>, before: View)
    requires !Succeeded(result) && before.lease == Intent && NoOrphan(before.docker, before.lease)
    ensures
      (forall listed, after :: IsListedEmpty(before, listed) && IsHandled(listed, after, HasSettled(result)) ==>
        NoOrphan(after.docker, after.lease)) <==>
      (HasSettled(result) ==> !before.docker.pending)
  {
    if before.docker.pending && HasSettled(result) {
      var after := before.(docker := Docker(Some(""), false), lease := NoLease);
      assert IsListedEmpty(before, before) && IsHandled(before, after, true) && !NoOrphan(after.docker, after.lease);
    }
  }

  // ----- creating the container

  datatype Creation = Created(containerId: string) | CreateFailed(id: Option<string>, authoritative: bool) | CreateInterrupted

  /** What the answer to a create means. */
  function CreationOf(call: Call<Option<string>>): Creation {
    match call
    case RaisedRepairError => CreateFailed(None, false)
    case Interrupted => CreateInterrupted
    case Exited(result) =>
      var id := if result.returnCode == 0 then result.output else None;
      if !Succeeded(result) then CreateFailed(id, HasSettled(result))
      else if id.Some? then Created(id.value) else CreateFailed(None, false)
  }

  /** `_create_container_id` */
  method CreateContainerId(world: World) returns (creation: Creation, ghost call: Call<Option<string>>)
    requires world.Safe() && world.lease == Intent && world.docker == Docker(None, false)
    modifies world
    ensures world.Safe() && world.lease == Intent
    ensures creation.Created? ==> IsKnown(world.docker, creation.containerId)
    ensures creation.CreateFailed? && creation.id.Some? ==> IsKnown(world.docker, creation.id.value)
    ensures creation.CreateFailed? && creation.authoritative && world.settles ==> !world.docker.pending
    ensures world.told == old(world.told) + [CreateTried(call)] && creation == CreationOf(call)
  {
    var tried := world.Create();
    call := tried;
    match tried
    case RaisedRepairError => creation := CreateFailed(None, false);
    case Interrupted => creation := CreateInterrupted;
    case Exited(result) =>
      var id := if result.returnCode == 0 then result.output else None;
      if !Succeeded(result) {
        creation := CreateFailed(id, HasSettled(result));
      } else {
        creation := if id.Some? then Created(id.value) else CreateFailed(None, false);
      }
  }

  /** The run's container, if any, is this one, and nothing else is to come. */
  predicate IsKnown(docker: Docker, id: string) { !docker.pending && docker.container in {None, Some(id)} }

  const GONE := Docker(None, false)

  /** Absence is taken as final only when nothing is to come. */
  predicate IsFinal(docker: Docker, allowAbsent: bool) { allowAbsent ==> !docker.pending }

  /** What is told while the container of this id is inspected and, if it is this run's, removed. */
  predicate IsSeenRemoval(told: seq<Exchange>, id: string, answer: Answer) {
    && told != [] && told[0].Inspected?
    && match told[0].seen
       case RaisedRepairError => told == told[..1] && answer == No
       case Interrupted => told == told[..1] && answer == Raised
       case Exited(result) =>
         if Succeeded(result) && result.output == Ours(id) then told == [told[0], Removal(id, answer)]
         else told == told[..1] && answer == No
  }

  /** What is told while a container is looked for by name: one that is seen is removed, and what a
      listing names is inspected first; only an empty listing, where absence may count, is a yes
      without a removal. */
  predicate IsUnboundRemoval(told: seq<Exchange>, allowAbsent: bool, answer: Answer) {
    && told != [] && told[0].Inspected?
    && match told[0].seen
       case RaisedRepairError => told == told[..1] && answer == No
       case Interrupted => told == told[..1] && answer == Raised
       case Exited(result) =>
         if Succeeded(result) then
           if result.output.Ours? then told == [told[0], Removal(result.output.id, answer)] else told == told[..1] && answer == No
         else |told| >= 2 && told[1].ListRead? && IsListedRemoval(told[1].listed, told[2..], allowAbsent, answer)
  }

  predicate IsListedRemoval(listed: Call<Listed>, after: seq<Exchange>, allowAbsent: bool, answer: Answer) {
    match listed
    case RaisedRepairError => after == [] && answer == No
    case Interrupted => after == [] && answer == Raised
    case Exited(result) =>
      if !Succeeded(result) || result.output.Garbled? then after == [] && answer == No
      else if result.output == Nothing then after == [] && answer == if allowAbsent then Yes else No
      else IsSeenRemoval(after, result.output.id, answer)
  }

  /** `_remove_or_confirm_unbound_invocation`: where absence is final, it says yes only when the container
      is gone for good. */
  method RemoveOrConfirm(world: World, allowAbsent: bool) returns (answer: Answer, ghost said: seq<Exchange>)
    requires world.Safe() && world.lease == Intent
    modifies world
    ensures world.Safe() && world.lease == Intent
    ensures answer == Yes && IsFinal(old(world.docker), allowAbsent) ==> world.docker == GONE
    ensures answer == Yes ==> world.docker.container.None?
    ensures world.told == old(world.told) + said && IsUnboundRemoval(said, allowAbsent, answer)
  {
    var inspect := world.Inspect();
    said := [Inspected(inspect)];
    match inspect
    case RaisedRepairError => return No, said;
    case Interrupted => return Raised, said;
    case Exited(result) =>
      if Succeeded(result) {
        if result.output.NotOurs? {
          return No, said;
        }
        answer := world.Remove(result.output.id);
        said := said + [Removal(result.output.id, answer)];
        return;
      }
    var listed := world.List();
    ghost var after;
    answer, after := RemoveListed(world, listed, allowAbsent);
    said := said + [ListRead(listed)] + after;
    assert said[2..] == after;
  }

  /** What the listing says decides. */
  method RemoveListed(world: World, listed: Call<Listed>, allowAbsent: bool) returns (answer: Answer, ghost said: seq<Exchange>)
    requires world.Safe() && world.lease == Intent
    requires listed.Exited? && Succeeded(listed.result) && listed.result.output == Nothing ==> world.docker.container.None?
    modifies world
    ensures world.Safe() && world.lease == Intent
    ensures answer == Yes && IsFinal(old(world.docker), allowAbsent) ==> world.docker == GONE
    ensures answer == Yes ==> world.docker.container.None?
    ensures world.told == old(world.told) + said && IsListedRemoval(listed, said, allowAbsent, answer)
  {
    said := [];
    match listed
    case RaisedRepairError => answer := No;
    case Interrupted => answer := Raised;
    case Exited(result) =>
      if !Succeeded(result) || result.output.Garbled? {
        answer := No;
      } else if result.output == Nothing {
        answer := if LeaseAfterEmptyListing(allowAbsent) == NoLease then Yes else No;
      } else {
        answer, said := RemoveSeen(world, result.output.id);
      }
  }

  /** Removes the container after an exact inspection of its id. */
  method RemoveSeen(world: World, id: string) returns (answer: Answer, ghost said: seq<Exchange>)
    requires world.Safe()
    modifies world
    ensures world.Safe() && (old(world.lease) == Intent ==> world.lease == Intent)
    ensures world.lease in {old(world.lease), NoLease}
    ensures answer == Yes ==> world.docker == GONE
    ensures world.told == old(world.told) + said && IsSeenRemoval(said, id, answer)
  {
    var inspect := world.Inspect();
    said := [Inspected(inspect)];
    match inspect
    case RaisedRepairError => answer := No;
    case Interrupted => answer := Raised;
    case Exited(result) =>
      if !Succeeded(result) || result.output != Ours(id) {
        answer := No;
      } else {
        answer := world.Remove(id);
        said := said + [Removal(id, answer)];
      }
  }

  // ----- the run

  datatype Trouble = NoTrouble | FailedCreate(id: Option<string>, authoritative: bool) | OtherException(cause: Cause)

  /** What a call that raises may raise. */
  method SomeCause() returns (cause: Cause)
    ensures cause in {RepairFailure, Interruption}
  {
    if * {
      cause := RepairFailure;
    } else {
      cause := Interruption;
    }
  }

  /** What is told in the guarded part, how it ends, and whether the run was accepted. */
  predicate IsTried(told: seq<Exchange>, trouble: Trouble, containerId: Option<string>, registered: bool) {
    && told != [] && told[0].Checked? && registered == (|told| == 4)
    && if told[0].failed.Some? then told == told[..1] && containerId.None? && trouble == OtherException(told[0].failed.value)
       else
         && |told| >= 2 && told[1].CreateTried?
         && match CreationOf(told[1].call)
            case CreateInterrupted => told == told[..2] && containerId.None? && trouble == OtherException(Interruption)
            case CreateFailed(id, authoritative) => told == told[..2] && containerId.None? && trouble == FailedCreate(id, authoritative)
            case Created(id) => containerId == Some(id) && IsStarted(told[2..], id, trouble)
  }

  /** Once the container is there: registered, checked, started and checkpointed. */
  predicate IsStarted(told: seq<Exchange>, id: string, trouble: Trouble) {
    && told != [] && told[0].RunAsked? && told[0].id == id
    && match told[0].answer
       case No => told == told[..1] && trouble == OtherException(RunRejected)
       case Raised => told == told[..1] && trouble in {OtherException(RepairFailure), OtherException(Interruption)}
       case Yes =>
         && |told| == 2 && told[1].Checked?
         && trouble == if told[1].failed.Some? then OtherException(told[1].failed.value) else NoTrouble
  }

  /** The guarded part of `_execute_validation_invocation`: create, register, corroborate, start,
      checkpoint. */
  method TryRun(world: World) returns (trouble: Trouble, containerId: Option<string>, registered: bool, ghost said: seq<Exchange>)
    requires world.Safe() && world.lease == Intent && world.docker == GONE
    modifies world
    ensures world.Safe()
    ensures containerId.Some? ==> IsKnown(world.docker, containerId.value) && (registered ==> world.lease in {Run(containerId.value), NoLease})
    ensures containerId.None? ==> world.lease == Intent && !registered && trouble != NoTrouble
    ensures trouble == NoTrouble ==> registered
    ensures trouble.FailedCreate? ==> containerId.None? && (trouble.authoritative && world.settles ==> !world.docker.pending)
    ensures trouble == OtherException(RunRejected) ==> containerId.Some? && !registered
    ensures trouble == OtherException(LateResult) ==> registered
    ensures trouble.FailedCreate? && trouble.id.Some? ==> IsKnown(world.docker, trouble.id.value)
    ensures registered ==> containerId.Some?
    ensures world.told == old(world.told) + said && IsTried(said, trouble, containerId, registered)
  {
    containerId, registered := None, false;
    var failed := world.Check(false);
    said := [Checked(failed)];
    if failed.Some? {
      trouble := OtherException(failed.value);
      return;
    }
    var creation;
    ghost var call;
    creation, call := CreateContainerId(world);
    said := said + [CreateTried(call)];
    match creation
    case CreateInterrupted =>
      trouble := OtherException(Interruption);
    case CreateFailed(id, authoritative) =>
      trouble := FailedCreate(id, authoritative);
    case Created(id) =>
      containerId := Some(id);
      ghost var started;
      trouble, registered, started := StartRun(world, id);
      said := said + started;
      assert said[2..] == started;
  }

  /** Register, corroborate, start, checkpoint. */
  method StartRun(world: World, id: string) returns (trouble: Trouble, registered: bool, ghost said: seq<Exchange>)
    requires world.Safe() && world.lease == Intent && IsKnown(world.docker, id)
    modifies world
    ensures world.Safe() && IsKnown(world.docker, id) && (registered ==> world.lease in {Run(id), NoLease})
    ensures !trouble.FailedCreate? && (trouble in {NoTrouble, OtherException(LateResult)} ==> registered)
    ensures trouble == OtherException(RunRejected) ==> !registered
    ensures world.told == old(world.told) + said && IsStarted(said, id, trouble) && registered == (|said| == 2)
  {
    var cause := SomeCause();
    registered := false;
    var answer;
    ghost var found;
    answer, found := world.RegisterRun(id);
    said := [RunAsked(id, answer)];
    if answer != Yes {
      trouble := OtherException(if answer == No then RunRejected else cause);
      return;
    }
    registered := true;
    var failed := world.Check(true);
    said := said + [Checked(failed)];
    trouble := if failed.Some? then OtherException(failed.value) else NoTrouble;
  }

  datatype Exit = Finished(id: string, cleanupPending: bool) | Threw(cause: Cause)

  /** The exception at hand, or another one raised while it was handled. */
  predicate IsThrown(exit: Exit, cause: Cause) { exit == Threw(cause) || IsAnother(exit) }

  predicate IsAnother(exit: Exit) { exit in {Threw(RepairFailure), Threw(Interruption)} }

  /** What is told while an exception of a known container is handled: one removal, and only after it
      worked, for a run that was never accepted, the lease is let go. */
  predicate IsExceptionHandled(told: seq<Exchange>, id: string, registered: bool, cause: Cause, exit: Exit) {
    && told != [] && told[0].Removal? && told[0].id == id
    && match told[0].answer
       case Raised => told == told[..1] && IsAnother(exit)
       case No => told == told[..1] && exit == Threw(cause)
       case Yes => if registered then told == told[..1] && exit == Threw(cause) else IsLetGo(told[1..], id, cause, exit)
  }

  predicate IsLetGo(told: seq<Exchange>, id: string, cause: Cause, exit: Exit) {
    && told != [] && told[0].RunDropped? && told[0].id == id
    && match told[0].answer
       case Raised => told == told[..1] && IsAnother(exit)
       case Yes => told == told[..1] && exit == Threw(cause)
       case No =>
         |told| == 2 && told[1].IntentDropped? && if told[1].answer == Raised then IsAnother(exit) else exit == Threw(cause)
  }

  /** What is told while an exception of a run without a known container is handled. */
  predicate IsUnboundHandled(told: seq<Exchange>, allowAbsent: bool, cause: Cause, exit: Exit) {
    || (IsUnboundRemoval(told, allowAbsent, No) && exit == Threw(cause))
    || (IsUnboundRemoval(told, allowAbsent, Raised) && IsAnother(exit))
    || (told != [] && Last(told).IntentDropped? && IsUnboundRemoval(Front(told), allowAbsent, Yes)
        && if Last(told).answer == Raised then IsAnother(exit) else exit == Threw(cause))
  }

  /** What is told while the failed create of a container with a known id is handled. */
  predicate IsNamedHandled(told: seq<Exchange>, id: string, exit: Exit) {
    && told != [] && told[0].RunAsked? && told[0].id == id
    && if told[0].answer == Raised then told == told[..1] && IsAnother(exit)
       else IsExceptionHandled(told[1..], id, told[0].answer == Yes, RepairFailure, exit)
  }

  /** What is told after the guarded part ended in this way, and how the run then ends. */
  predicate IsEnded(told: seq<Exchange>, trouble: Trouble, containerId: Option<string>, registered: bool, exit: Exit) {
    match trouble
    case FailedCreate(Some(id), _) => IsNamedHandled(told, id, exit)
    case FailedCreate(None, authoritative) => IsUnboundHandled(told, authoritative, RepairFailure, exit)
    case OtherException(cause) =>
      if containerId.Some? then IsExceptionHandled(told, containerId.value, registered, cause, exit) else IsUnboundHandled(told, false, cause, exit)
    case NoTrouble =>
      && containerId.Some? && |told| == 1 && told[0].Removal? && told[0].id == containerId.value
      && if told[0].answer == Raised then IsAnother(exit) else exit == Finished(containerId.value, told[0].answer != Yes)
  }

  /** A whole execution. */
  ghost predicate IsExecution(told: seq<Exchange>, exit: Exit) {
    exists tried, ended, trouble, containerId, registered :: IsExecutionOf(told, exit, tried, ended, trouble, containerId, registered)
  }

  predicate IsExecutionOf(told: seq<Exchange>, exit: Exit, tried: seq<Exchange>, ended: seq<Exchange>, trouble: Trouble,
      containerId: Option<string>, registered: bool)
  {
    told == tried + ended && IsTried(tried, trouble, containerId, registered) && IsEnded(ended, trouble, containerId, registered, exit)
  }

  /** A run in which everything went well until the removal, which answered `removed`. */
  predicate IsGoodRun(told: seq<Exchange>, id: string, removed: Answer) {
    && |told| == 5 && told[0] == Checked(None) && told[1].CreateTried? && CreationOf(told[1].call) == Created(id)
    && told[2] == RunAsked(id, Yes) && told[3] == Checked(None) && told[4] == Removal(id, removed)
  }

  /** A run finishes exactly when everything went well and the removal answered; its cleanup is
      pending exactly when that answer was not yes. */
  lemma {:induction false} FinishesExactly(told: seq<Exchange>, exit: Exit)
    requires IsExecution(told, exit)
    ensures exit.Finished? ==> IsGoodRun(told, exit.id, if exit.cleanupPending then No else Yes)
    ensures forall id, removed :: IsGoodRun(told, id, removed) && removed != Raised ==> exit == Finished(id, removed != Yes)
  {
    var tried, ended, trouble, containerId, registered :| IsExecutionOf(told, exit, tried, ended, trouble, containerId, registered);
    ExecutionFinishes(told, exit, tried, ended, trouble, containerId, registered);
  }

  lemma {:induction false} ExecutionFinishes(told: seq<Exchange>, exit: Exit, tried: seq<Exchange>, ended: seq<Exchange>, trouble: Trouble,
      containerId: Option<string>, registered: bool)
    requires IsExecutionOf(told, exit, tried, ended, trouble, containerId, registered)
    ensures exit.Finished? ==> IsGoodRun(told, exit.id, if exit.cleanupPending then No else Yes)
    ensures forall id, removed :: IsGoodRun(told, id, removed) && removed != Raised ==> exit == Finished(id, removed != Yes)
  {
    if trouble == NoTrouble {
      assert tried[2..][0] == tried[2] && tried[2..][1] == tried[3];
      assert told[4] == ended[0];
    } else if |told| == 5 && told[4].Removal? {
      BadRunIsShort(told, tried, trouble, containerId, registered);
    }
  }

  lemma {:induction false} BadRunIsShort(told: seq<Exchange>, tried: seq<Exchange>, trouble: Trouble, containerId: Option<string>, registered: bool)
    requires tried <= told && IsTried(tried, trouble, containerId, registered) && trouble != NoTrouble
    ensures forall id, removed :: !IsGoodRun(told, id, removed)
  {
  }

  /** `_execute_validation_invocation`, every handler included. */
  method Execute(world: World) returns (exit: Exit, ghost said: seq<Exchange>)
    requires world.Safe() && world.lease == Intent && world.docker == GONE
    modifies world
    ensures world.settles ==> world.Safe()
    ensures exit.Finished? ==>
      world.Safe() && world.lease in {Run(exit.id), NoLease} && (!exit.cleanupPending ==> world.docker == GONE)
    ensures world.told == old(world.told) + said && IsExecution(said, exit)
  {
    var trouble, containerId, registered;
    ghost var tried, ended;
    trouble, containerId, registered, tried := TryRun(world);
    exit, ended := EndRun(world, trouble, containerId, registered);
    said := tried + ended;
    assert IsExecutionOf(said, exit, tried, ended, trouble, containerId, registered);
  }

  /** The handlers, and the removal of a run that went well. */
  method EndRun(world: World, trouble: Trouble, containerId: Option<string>, registered: bool) returns (exit: Exit, ghost said: seq<Exchange>)
    requires world.Safe()
    requires containerId.Some? ==> IsKnown(world.docker, containerId.value) && (registered ==> world.lease in {Run(containerId.value), NoLease})
    requires containerId.None? ==> world.lease == Intent && !registered && trouble != NoTrouble
    requires trouble == NoTrouble ==> registered
    requires trouble.FailedCreate? ==> containerId.None? && (trouble.authoritative && world.settles ==> !world.docker.pending)
    requires trouble.FailedCreate? && trouble.id.Some? ==> IsKnown(world.docker, trouble.id.value)
    modifies world
    ensures world.settles ==> world.Safe()
    ensures exit.Finished? ==>
      world.Safe() && world.lease in {Run(exit.id), NoLease} && (!exit.cleanupPending ==> world.docker == GONE)
    ensures world.told == old(world.told) + said && IsEnded(said, trouble, containerId, registered, exit)
  {
    match trouble
    case FailedCreate(Some(id), _) => exit, said := HandleNamedFailure(world, id);
    case FailedCreate(None, authoritative) => exit, said := HandleUnboundFailure(world, authoritative, RepairFailure);
    case OtherException(cause) =>
      if containerId.Some? {
        exit, said := HandleException(world, containerId.value, registered, cause);
      } else {
        exit, said := HandleUnboundFailure(world, false, cause);
      }
    case NoTrouble =>
      var removed := world.Remove(containerId.value);
      said := [Removal(containerId.value, removed)];
      if removed == Raised {
        var cause := SomeCause();
        return Threw(cause), said;
      }
      exit := Finished(containerId.value, removed != Yes);
  }

  /** The create failed but told the container's id. */
  method HandleNamedFailure(world: World, id: string) returns (exit: Exit, ghost said: seq<Exchange>)
    requires world.Safe() && world.lease == Intent && IsKnown(world.docker, id)
    modifies world
    ensures world.Safe() && IsThrown(exit, RepairFailure)
    ensures world.told == old(world.told) + said && IsNamedHandled(said, id, exit)
  {
    var accepted;
    ghost var found, after;
    accepted, found := world.RegisterRun(id);
    said := [RunAsked(id, accepted)];
    if accepted == Raised {
      var cause := SomeCause();
      return Threw(cause), said;
    }
    exit, after := HandleException(world, id, accepted == Yes, RepairFailure);
    said := said + after;
    assert said[1..] == after;
  }

  /** The container is known: remove it, and let go of the lease only if that worked and the run
      was never accepted; then the exception goes on. */
  method HandleException(world: World, id: string, registered: bool, cause: Cause) returns (exit: Exit, ghost said: seq<Exchange>)
    requires world.Safe() && IsKnown(world.docker, id)
    modifies world
    ensures world.Safe() && IsThrown(exit, cause)
    ensures registered ==> world.lease in {old(world.lease), NoLease} && (old(world.lease) == Intent ==> world.lease == Intent)
    ensures world.told == old(world.told) + said && IsExceptionHandled(said, id, registered, cause, exit)
  {
    var another := SomeCause();
    var removed := world.Remove(id);
    said := [Removal(id, removed)];
    if removed == Raised {
      return Threw(another), said;
    }
    if !registered && removed == Yes {
      ghost var after;
      exit, after := LetGo(world, id, cause);
      said := said + after;
      assert said[1..] == after;
      return;
    }
    return Threw(cause), said;
  }

  /** The lease of a container that is gone, bound or still an intent. */
  method LetGo(world: World, id: string, cause: Cause) returns (exit: Exit, ghost said: seq<Exchange>)
    requires world.Safe() && world.docker == GONE
    modifies world
    ensures world.Safe() && IsThrown(exit, cause)
    ensures world.told == old(world.told) + said && IsLetGo(said, id, cause, exit)
  {
    var another := SomeCause();
    var released;
    ghost var found;
    released, found := world.ReleaseRun(id);
    said := [RunDropped(id, released)];
    if released == Raised {
      return Threw(another), said;
    }
    if released == No {
      var dropped := world.ReleaseIntent();
      said := said + [IntentDropped(dropped)];
      if dropped == Raised {
        return Threw(another), said;
      }
    }
    return Threw(cause), said;
  }

  /** No id is known: the intent is released only once the container is surely gone, which an absence
      taken as final must really be. */
  method HandleUnboundFailure(world: World, allowAbsent: bool, cause: Cause) returns (exit: Exit, ghost said: seq<Exchange>)
    requires world.Safe() && world.lease == Intent
    modifies world
    ensures IsFinal(old(world.docker), allowAbsent) ==> world.Safe()
    ensures IsThrown(exit, cause)
    ensures world.told == old(world.told) + said && IsUnboundHandled(said, allowAbsent, cause, exit)
  {
    var another := SomeCause();
    var removed;
    removed, said := RemoveOrConfirm(world, allowAbsent);
    if removed == Yes {
      ghost var before := said;
      var dropped := world.ReleaseIntent();
      said := said + [IntentDropped(dropped)];
      assert Front(said) == before;
      if dropped == Raised {
        return Threw(another), said;
      }
    }
    return Threw(if removed == Raised then another else cause), said;
  }

  /** `_run_sandbox_validation`: if clients that exit by themselves have settled, then whatever Docker, the
      session and exceptions do, the run ends with no orphan; and an outcome without pending cleanup
      means the container is gone. */
  method RunSandboxValidation(world: World) returns (exit: Exit, ghost asked: Answer, ghost said: seq<Exchange>)
    requires world.Safe() && world.docker == GONE && world.lease == NoLease
    modifies world
    ensures world.settles ==> world.Safe()
    ensures exit.Finished? ==>
      world.Safe() && world.lease in {Run(exit.id), NoLease} && (!exit.cleanupPending ==> world.docker == GONE)
    ensures world.told == old(world.told) + [IntentAsked(asked)] + said
    ensures IsWholeRun(asked, said, exit)
  {
    var answer;
    ghost var found;
    answer, found := world.RegisterIntent();
    asked, said := answer, [];
    match answer
    case Raised =>
      var cause := SomeCause();
      exit := Threw(cause);
    case No => exit := Threw(RunRejected);
    case Yes => exit, said := Execute(world);
  }

  /** The answer to the intent, what is told after it, and how the run ends. */
  ghost predicate IsWholeRun(asked: Answer, said: seq<Exchange>, exit: Exit) {
    match asked
    case Raised => said == [] && IsAnother(exit)
    case No => said == [] && exit == Threw(RunRejected)
    case Yes => IsExecution(said, exit)
  }

  // ----- what the session does with it

  datatype Ending = CandidateValidated | ValidationFailed | StillOwed | Superseded | SessionCorrupt

  /** How a validation ends, by the session that is found when its outcome is to be saved. */
  function EndingOf(found: View, id: string, cleanupPending: bool, success: bool): Ending {
    if !found.validating then Superseded
    else if found.lease != Run(id) then SessionCorrupt
    else if cleanupPending then StillOwed
    else if success then CandidateValidated else ValidationFailed
  }

  /** `_finish_validation`: the lease is cleared only for a container that is gone. */
  method FinishValidation(world: World, id: string, cleanupPending: bool, success: bool) returns (ending: Ending, ghost found: View)
    requires world.Safe() && (!cleanupPending ==> world.docker == GONE)
    modifies world
    ensures world.Safe()
    ensures ending in {CandidateValidated, ValidationFailed} ==> world.docker == GONE && world.lease == NoLease
    ensures ending in {CandidateValidated, ValidationFailed} ==> !cleanupPending && (ending == CandidateValidated <==> success)
    ensures ending == StillOwed ==> cleanupPending && world.lease == Run(id)
    ensures world.validating ==> ending == SessionCorrupt
    ensures WorldMoves(old(world.Now()), found) && ending == EndingOf(found, id, cleanupPending, success) && world.told == old(world.told)
    ensures ending in {Superseded, SessionCorrupt} ==> world.Now() == found
  {
    world.Interfere();
    found := world.Now();
    if !world.validating {
      return Superseded, found;
    }
    if world.lease != Run(id) {
      return SessionCorrupt, found;
    }
    world.validating := false;
    if cleanupPending {
      return StillOwed, found;
    }
    world.lease := NoLease;
    return if success then CandidateValidated else ValidationFailed, found;
  }

  /** What a failure that is persisted does to the session it finds: one that has ended already is left
      alone; else it ends, a bound container is removed, and only then is its lease cleared. */
  predicate IsPersisted(found: View, after: View, said: seq<Exchange>) {
    if !found.validating then after == found && said == []
    else if !found.lease.Run? then after == found.(validating := false) && said == []
    else
      && !after.validating && after.lease in {found.lease, NoLease}
      && exists answer :: IsExactRemoval(said, found.lease.containerId, answer) && (answer == Yes ==> after.lease == NoLease)
  }

  /** `_persist_proposal_failure` with `_cleanup_terminal_validation_run`: the session fails; a
      bound container is removed by its id and only then is its lease cleared; an intent stays. */
  method PersistFailure(world: World) returns (ghost found: View, ghost said: seq<Exchange>)
    requires world.Safe()
    modifies world
    ensures world.Safe() && !world.validating
    ensures old(world.lease) == Intent ==> world.lease == Intent
    ensures WorldMoves(old(world.Now()), found) && world.told == old(world.told) + said && IsPersisted(found, world.Now(), said)
  {
    world.Interfere();
    found, said := world.Now(), [];
    if !world.validating {
      return;
    }
    world.validating := false;
    if world.lease.Run? {
      var id := world.lease.containerId;
      var removed;
      removed, said := RemoveExact(world, id);
      if removed == Yes {
        world.Interfere();
        if world.lease == Run(id) {
          world.lease := NoLease;
        }
      }
    }
  }

  /** What is told while a bound container is removed by its id: one that is seen is removed, and else
      an empty listing is enough, since the id was bound. */
  predicate IsExactRemoval(told: seq<Exchange>, id: string, answer: Answer) {
    && told != [] && told[0].Inspected?
    && match told[0].seen
       case RaisedRepairError => told == told[..1] && answer == No
       case Interrupted => told == told[..1] && answer == Raised
       case Exited(result) =>
         if Succeeded(result) then
           if result.output == Ours(id) then told == [told[0], Removal(id, answer)] else told == told[..1] && answer == No
         else
           && |told| == 2 && told[1].ListRead?
           && answer ==
              match told[1].listed
              case RaisedRepairError => No
              case Interrupted => Raised
              case Exited(empty) => if Succeeded(empty) && empty.output == Nothing then Yes else No
  }

  /** `_remove_exact_container` */
  method RemoveExact(world: World, id: string) returns (answer: Answer, ghost said: seq<Exchange>)
    requires world.Safe() && world.lease == Run(id)
    modifies world
    ensures world.Safe() && world.lease in {Run(id), NoLease} && (world.validating ==> old(world.validating))
    ensures answer == Yes ==> world.docker == GONE
    ensures world.told == old(world.told) + said && IsExactRemoval(said, id, answer)
  {
    var inspect := world.Inspect();
    said := [Inspected(inspect)];
    match inspect
    case RaisedRepairError => return No, said;
    case Interrupted => return Raised, said;
    case Exited(result) =>
      if Succeeded(result) {
        if result.output != Ours(id) {
          return No, said;
        }
        answer := world.Remove(id);
        said := said + [Removal(id, answer)];
        return;
      }
    var listed := world.List();
    said := said + [ListRead(listed)];
    match listed
    case RaisedRepairError => answer := No;
    case Interrupted => answer := Raised;
    case Exited(result) => answer := if Succeeded(result) && result.output == Nothing then Yes else No;
  }

  /** A whole validation, from intent to persisted state: it is safe at every step and at the end. After
      a result, and after an error that is to be recorded, the session is no longer validating; a
      rejected run, a late result and an interruption are left to whoever ended the session. A run that
      went well and whose container was removed, in a session that still validates under its lease, ends
      as its report says. */
  method Validate(world: World, success: bool) returns (exit: Exit, ending: Option<Ending>, ghost asked: Answer, ghost said: seq<Exchange>, ghost found: View)
    requires world.settles && world.Safe() && world.docker == GONE && world.lease == NoLease
    modifies world
    ensures world.Safe()
    ensures exit.Finished? || exit == Threw(RepairFailure) ==> !world.validating
    ensures old(world.told) + [IntentAsked(asked)] + said <= world.told && IsWholeRun(asked, said, exit)
    ensures ending == if exit.Finished? then Some(EndingOf(found, exit.id, exit.cleanupPending, success)) else None
    ensures asked == Yes && found.validating && found.lease.Run? && IsGoodRun(said, found.lease.containerId, Yes) ==>
      ending == Some(if success then CandidateValidated else ValidationFailed) && world.lease == NoLease && world.docker == GONE
  {
    exit, asked, said := RunSandboxValidation(world);
    ending, found := None, world.Now();
    ghost var failure, after;
    match exit
    case Threw(cause) =>
      if cause == RepairFailure {
        failure, after := PersistFailure(world);
      }
    case Finished(id, cleanupPending) =>
      var how;
      how, found := FinishValidation(world, id, cleanupPending, success);
      ending := Some(how);
      if how in {StillOwed, SessionCorrupt} {
        failure, after := PersistFailure(world);
      }
    if asked == Yes {
      FinishesExactly(said, exit);
    }
  }
}

/** The persisted plan of internal/importer/plan_store.go. */
module PlanStore {
  import opened Common
  import opened ImportPlans

  datatype StoreError = NoError | NoPlan | Unavailable

  // ----- the state changes -----

  /** A plan as CreateImportPlanFromFolder stores it. */
  function Fresh(plan: Plan): (sp: StoredPlan)
    ensures Sound(sp) && sp.plan == Some(plan) && sp.status == Planned && sp.userId == "" && !sp.cancelRequested
    ensures sp.result.None? && sp.error.None? && sp.processed == sp.total == 0 && sp.current.None?
  {
    StoredPlan(Some(plan), Planned, "", false, None, None, 0, 0, None)
  }

  function Started(sp: StoredPlan, userId: string): StoredPlan
    requires sp.plan.Some?
  {
    sp.(status := Running, userId := userId, cancelRequested := false, result := None, error := None,
        processed := 0, total := |sp.plan.value.items|, current := None)
  }

  function Progressed(sp: StoredPlan, processed: nat, total: nat, current: Option<string>, partial: Option<RunResult>): StoredPlan
  {
    sp.(processed := processed, total := total, current := current, result := if partial.Some? then partial else sp.result)
  }

  function Finished(sp: StoredPlan, result: Option<RunResult>, how: Outcome): StoredPlan
  {
    var ended := sp.(result := result, userId := "", cancelRequested := false, current := None);
    match how
    case Done => ended.(status := Completed, error := None, processed := sp.total)
    case WasCanceled => ended.(status := Canceled, error := None)
    case Stopped(why) => ended.(status := Failed, error := Some(why))
  }

  predicate Owns(held: Option<StoredPlan>, planId: string)
  {
    held.Some? && held.value.plan.Some? && held.value.plan.value.id == planId
  }

  /** A run that has just begun. */
  predicate Untouched(sp: StoredPlan, userId: string)
  {
    && sp.plan.Some? && sp.status == Running && sp.userId == userId && sp.total == |sp.plan.value.items|
    && !sp.cancelRequested && sp.result.None? && sp.error.None? && sp.processed == 0 && sp.current.None?
  }

  /** A run that is over: no one runs it, no cancel request is pending, and the status says how it ended. */
  predicate Over(sp: StoredPlan, result: Option<RunResult>, how: Outcome)
  {
    && sp.userId == "" && !sp.cancelRequested && sp.current.None? && sp.result == result
    && match how
       case Done => sp.status == Completed && sp.error.None? && sp.processed == sp.total
       case WasCanceled => sp.status == Canceled && sp.error.None?
       case Stopped(why) => sp.status == Failed && sp.error == Some(why)
  }

  /** The store in memory, its file, and every content the file has had. */
  class PlanStore {
    var plan: Option<StoredPlan>
    var stateErr: bool
    var disk: Option<StoredPlan>
    var written: seq<Option<StoredPlan>>
    /** Whether the n-th write of the file succeeds. */
    const healthy: nat -> bool
    var attempts: nat

    ghost predicate Valid()
      reads this
    {
      && (!stateErr ==> disk == plan)
      && written != [] && written[|written| - 1] == disk
      && SoundHistory(written)
    }

    /** load: an unreadable file makes the store unavailable. */
    constructor (disk: Option<StoredPlan>, readable: bool, healthy: nat -> bool)
      requires disk.Some? ==> Sound(disk.value)
      ensures Valid() && this.disk == disk && written == [disk] && stateErr == !readable && this.healthy == healthy
    {
      this.disk, this.healthy, attempts, written := disk, healthy, 0, [disk];
      plan := if readable then disk else None;
      stateErr := !readable;
    }

    /** persistLocked: the file is replaced by a rename, or stays as it was. */
    method PersistLocked() returns (ok: bool)
      modifies this`disk, this`written, this`attempts
      ensures ok == healthy(old(attempts)) && attempts == old(attempts) + 1
      ensures disk == (if ok then plan else old(disk))
      ensures written == (if ok then old(written) + [plan] else old(written))
    {
      ok := healthy(attempts);
      attempts := attempts + 1;
      if ok {
        disk := plan;
        written := written + [plan];
      }
    }

    /** The file gets no other content than what is in memory now, and that at most once. */
    twostate predicate AddsOnlyPlan()
      reads this
    {
      written == old(written) || written == old(written) + [plan]
    }

    /** Every change ends this way: an unwritten change makes the store unavailable. */
    method Change(next: Option<StoredPlan>)
      requires Valid() && !stateErr && (next.Some? ==> Sound(next.value)) && Extends(plan, next)
      modifies this
      ensures Valid() && plan == next && stateErr == !healthy(old(attempts))
      ensures AddsOnlyPlan() && (!stateErr ==> written == old(written) + [next])
    {
      plan := next;
      var ok := PersistLocked();
      if !ok {
        stateErr := true;
      }
    }

    method Set(sp: StoredPlan) returns (err: StoreError)
      requires Valid() && Sound(sp) && (!stateErr ==> Extends(plan, Some(sp)))
      modifies this
      ensures Valid() && AddsOnlyPlan() && stateErr == (old(stateErr) || !healthy(old(attempts)))
      ensures err == (if stateErr then Unavailable else NoError)
      ensures plan == (if old(stateErr) then old(plan) else Some(sp))
    {
      if stateErr {
        return Unavailable;
      }
      Change(Some(sp));
      err := if stateErr then Unavailable else NoError;
    }

    method Clear() returns (removed: Option<StoredPlan>, err: StoreError)
      requires Valid()
      modifies this
      ensures Valid() && AddsOnlyPlan() && stateErr == (old(stateErr) || !healthy(old(attempts)))
      ensures err == (if stateErr then Unavailable else NoError)
      ensures plan == (if old(stateErr) then old(plan) else None)
      ensures removed == (if old(stateErr) then None else old(plan))
    {
      if stateErr {
        return None, Unavailable;
      }
      removed := plan;
      Change(None);
      err := if stateErr then Unavailable else NoError;
    }

    method Get() returns (sp: Option<StoredPlan>, err: StoreError)
      requires Valid()
      ensures err == (if stateErr then Unavailable else if plan.None? then NoPlan else NoError)
      ensures sp == (if err == NoError then disk else None)
      ensures sp.Some? ==> Sound(sp.value) && !stateErr
    {
      if stateErr {
        return None, Unavailable;
      }
      if plan.None? {
        return None, NoPlan;
      }
      assert disk in written;
      return plan, NoError;
    }

    /**
     TryStartExecution: a running or completed plan is not started again; of one that is started nothing is
     left that an earlier run of it, or a cancel request for that, has stored.
     */
    method TryStartExecution(userId: string) returns (sp: Option<StoredPlan>, started: bool, err: StoreError)
      requires Valid()
      modifies this
      ensures Valid() && AddsOnlyPlan()
      ensures old(stateErr) ==> stateErr
      ensures started <==> !old(stateErr) && healthy(old(attempts)) && old(plan).Some? && old(plan).value.plan.Some? &&
                           old(plan).value.status !in {Running, Completed}
      ensures started ==> plan == Some(Started(old(plan).value, userId)) && err == NoError && !stateErr
      ensures started ==> plan.value.plan == old(plan).value.plan && !IsCancelRequested(plan.value.plan.value.id) && Untouched(plan.value, userId)
      ensures sp == (if err == NoError then plan else None)
      ensures !started && !stateErr ==> plan == old(plan)
      ensures plan == old(plan) ||
                (!old(stateErr) && old(plan).Some? && old(plan).value.plan.Some? && plan == Some(Started(old(plan).value, userId)))
      ensures !started && err == NoError ==> plan.Some? && plan.value.status in {Running, Completed}
    {
      if stateErr {
        return None, false, Unavailable;
      }
      if plan.None? {
        return None, false, NoPlan;
      }
      if plan.value.plan.None? {
        return None, false, Unavailable;
      }
      if plan.value.status in {Running, Completed} {
        return plan, false, NoError;
      }
      Change(Some(Started(plan.value, userId)));
      if stateErr {
        return None, false, Unavailable;
      }
      return plan, true, NoError;
    }

    /** FinishExecution: ignored when another plan has taken over. */
    method FinishExecution(planId: string, result: Option<RunResult>, how: Outcome) returns (err: StoreError)
      requires Valid()
      requires !stateErr && Owns(plan, planId) ==>
                 Sound(Finished(plan.value, result, how)) && Extends(plan, Some(Finished(plan.value, result, how)))
      modifies this
      ensures Valid() && AddsOnlyPlan()
      ensures stateErr == (old(stateErr) || (Owns(old(plan), planId) && !healthy(old(attempts))))
      ensures err == (if stateErr then Unavailable else NoError)
      ensures plan == if old(stateErr) || !Owns(old(plan), planId) then old(plan) else Some(Finished(old(plan).value, result, how))
      ensures !old(stateErr) && Owns(old(plan), planId) ==> plan.value.plan == old(plan).value.plan && Over(plan.value, result, how)
    {
      if stateErr {
        return Unavailable;
      }
      if !Owns(plan, planId) {
        return NoError;
      }
      Change(Some(Finished(plan.value, result, how)));
      err := if stateErr then Unavailable else NoError;
    }

    /** UpdateExecutionProgress: ignored when another plan has taken over. */
    method UpdateExecutionProgress(planId: string, processed: nat, total: nat, current: Option<string>, partial: Option<RunResult>)
      returns (err: StoreError)
      requires Valid()
      requires !stateErr && Owns(plan, planId) ==>
                 var next := Progressed(plan.value, processed, total, current, partial);
                 Sound(next) && Extends(plan, Some(next))
      modifies this
      ensures Valid() && AddsOnlyPlan()
      ensures stateErr == (old(stateErr) || (Owns(old(plan), planId) && !healthy(old(attempts))))
      ensures err == (if stateErr then Unavailable else NoError)
      ensures plan == if old(stateErr) || !Owns(old(plan), planId) then old(plan)
                      else Some(Progressed(old(plan).value, processed, total, current, partial))
      ensures IsCancelRequested(planId) == old(IsCancelRequested(planId))
      ensures Owns(old(plan), planId) ==>
                Owns(plan, planId) && plan.value.plan == old(plan).value.plan && plan.value.status == old(plan).value.status
    {
      if stateErr {
        return Unavailable;
      }
      if !Owns(plan, planId) {
        return NoError;
      }
      Change(Some(Progressed(plan.value, processed, total, current, partial)));
      err := if stateErr then Unavailable else NoError;
    }

    /** RequestCancel: only a running plan, and only once. */
    method RequestCancel() returns (sp: Option<StoredPlan>, requested: bool, err: StoreError)
      requires Valid()
      modifies this
      ensures Valid() && AddsOnlyPlan()
      ensures stateErr == (old(stateErr) || (plan != old(plan) && !healthy(old(attempts))))
      ensures !old(stateErr) && old(plan).Some? && old(plan).value.status == Running && !old(plan).value.cancelRequested ==>
                plan == Some(old(plan).value.(cancelRequested := true))
      ensures old(stateErr) || old(plan).None? || old(plan).value.status != Running || old(plan).value.cancelRequested ==>
                plan == old(plan) && !requested && stateErr == old(stateErr)
      ensures requested <==> plan != old(plan) && !stateErr
      ensures sp == (if err == NoError then plan else None)
    {
      if stateErr {
        return None, false, Unavailable;
      }
      if plan.None? {
        return None, false, NoPlan;
      }
      if plan.value.status != Running || plan.value.cancelRequested {
        return plan, false, NoError;
      }
      Change(Some(plan.value.(cancelRequested := true)));
      if stateErr {
        return None, false, Unavailable;
      }
      return plan, true, NoError;
    }

    /** IsCancelRequested: answers from memory, also when the store is unavailable. */
    predicate IsCancelRequested(planId: string)
      reads this
    {
      Owns(plan, planId) && plan.value.cancelRequested
    }
  }

  /** Every content of the file is sound, and each may follow the one before. */
  ghost predicate SoundHistory(written: seq<Option<StoredPlan>>)
  {
    && (forall s :: s in written && s.Some? ==> Sound(s.value))
    && (forall i :: 0 <= i < |written| - 1 ==> Extends(written[i], written[i + 1]))
  }
}

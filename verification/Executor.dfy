/**
 Running an import plan: Execute of internal/importer/executor.go, and how
 internal/importer/importer_service.go starts it, finishes it and resumes it after a crash.
 */
module Executor {
  import opened Common
  import opened ImportPlans
  import opened PlanStore

  /** What another request does to the store before an item is looked at. */
  datatype Visit = Nobody | Cancels | Clears | Replaces(plan: Plan, runBy: Option<string>)

  /** A run of this plan is in memory, with at most one recorded item not yet stored. */
  ghost predicate InRun(held: StoredPlan, plan: Plan, items: seq<ItemResult>)
  {
    && held.plan == Some(plan) && held.status == Running && Sound(held)
    && ItemsOf(held) <= items && held.processed <= |items| <= held.processed + 1
  }

  /** The run's state when the store can still be changed by it. */
  ghost predicate Holds(held: Option<StoredPlan>, plan: Plan, items: seq<ItemResult>)
  {
    Owns(held, plan.id) ==> InRun(held.value, plan, items)
  }

  /** A run in this life: what it started from, at which item, and how many contents the file had had before. */
  datatype Since = Since(first: Progress, start: nat, written: nat)

  lemma ProgressIsSound(held: StoredPlan, plan: Plan, r: RunResult, items: seq<ItemResult>, current: Option<string>)
    requires InRun(held, plan, items) && items <= r.items && Accounts(plan, r, |r.items|)
    ensures
      var next := Progressed(held, |r.items|, |plan.items|, current, Some(r));
      InRun(next, plan, r.items) && Extends(Some(held), Some(next))
  {
  }

  lemma FinishIsSound(held: StoredPlan, plan: Plan, r: Option<RunResult>, how: Outcome)
    requires InRun(held, plan, if r.Some? then r.value.items else ItemsOf(held))
    requires r.Some? ==> Accounts(plan, r.value, |r.value.items|)
    requires match how
             case Done => r.Some? && |r.value.items| == |plan.items|
             case WasCanceled => r.Some?
             case Stopped(_) => r.None?
    ensures Sound(Finished(held, r, how)) && Extends(Some(held), Some(Finished(held, r, how)))
  {
  }

  /** Of a run that begins: a cancel request for its plan is pending, and the plan is the stored one. */
  datatype Asked = Asked(pending: bool, owned: bool)

  /** The same of a run on its way, and whether the store is unavailable. */
  datatype Seen = Seen(pending: bool, owned: bool, stateErr: bool)

  class ImporterService {
    const store: PlanStore
    const hash: Pages -> string
    const world: World
    const others: nat -> Visit
    /** The wiki. */
    var pages: Pages

    constructor (store: PlanStore, hash: Pages -> string, world: World, others: nat -> Visit, pages: Pages)
      ensures this.store == store && this.hash == hash && this.world == world && this.others == others && this.pages == pages
    {
      this.store, this.hash, this.world, this.others, this.pages := store, hash, world, others, pages;
    }

    /**
     What a run makes of the wiki as it found it: refused, it changes nothing; otherwise result and wiki
     are those of the run up to the item where it was canceled, or to the end.
     */
    ghost predicate RunsTo(plan: Plan, start: nat, initial: Option<RunResult>, before: Pages,
                           result: Option<RunResult>, how: Outcome)
      requires start <= |plan.items|
      reads this
    {
      if Refusal(plan, start, initial, hash(before)).Some? then
        how == Stopped(Refusal(plan, start, initial, hash(before)).value) && result.None? && pages == before
      else
        && !how.Stopped? && result.Some? && start <= |result.value.items| <= |plan.items|
        && (how.Done? ==> |result.value.items| == |plan.items|)
        && var reached := Run(plan, Progress(StartOf(initial, hash(before)), before), start, |result.value.items|, world, hash);
           pages == reached.pages && result.value == if how.Done? then reached.result.(treeHash := hash(pages)) else reached.result
    }

    /** What a stored state says of a run of this plan is what the run may report. */
    ghost predicate Tells(held: Option<StoredPlan>, plan: Plan, since: Since)
    {
      Owns(held, plan.id) && held.value.status == Running && held.value.result.Some? ==>
        Reported(plan, since.first, since.start, StartOf(held.value.result, since.first.result.treeHashBefore), world, hash)
    }

    /** So does every content the file has had since the run began. */
    ghost predicate HistoryTells(written: seq<Option<StoredPlan>>, plan: Plan, since: Since)
    {
      since.written <= |written| && forall j :: since.written <= j < |written| ==> Tells(written[j], plan, since)
    }

    /** So do memory and file. */
    ghost predicate AllTell(plan: Plan, since: Since)
      reads this, store
    {
      Tells(store.plan, plan, since) && HistoryTells(store.written, plan, since)
    }

    /** One write more, of what is in memory, and memory tells. */
    lemma TellsOn(was: seq<Option<StoredPlan>>, plan: Plan, since: Since)
      requires HistoryTells(was, plan, since) && (store.written == was || store.written == was + [store.plan])
      requires Tells(store.plan, plan, since)
      ensures AllTell(plan, since)
    {
    }

    /**
     Another request. A plan is replaced although it runs when the check of its status came before its
     start; a new plan has an ID of its own, so a visit that reuses the running plan's ID cannot happen.
     */
    method Receive(v: Visit, plan: Plan, ghost items: seq<ItemResult>, ghost since: Since)
      requires store.Valid() && (!store.stateErr ==> Holds(store.plan, plan, items)) && AllTell(plan, since)
      modifies store
      ensures store.Valid() && old(store.written) <= store.written && (!store.stateErr ==> Holds(store.plan, plan, items))
      ensures AllTell(plan, since)
      ensures v.Nobody? ==> store.plan == old(store.plan)
      ensures old(store.stateErr) ==> store.stateErr
      ensures v in {Nobody, Cancels} ==> (Owns(store.plan, plan.id) <==> old(Owns(store.plan, plan.id)))
      ensures old(store.IsCancelRequested(plan.id)) && v in {Nobody, Cancels} ==> store.IsCancelRequested(plan.id)
      ensures store.IsCancelRequested(plan.id) ==> v.Cancels? || old(store.IsCancelRequested(plan.id))
      ensures v.Cancels? && !old(store.stateErr) && Owns(old(store.plan), plan.id) ==> store.IsCancelRequested(plan.id)
    {
      match v
      case Nobody =>
      case Cancels =>
        var _, _, _ := store.RequestCancel();
        TellsOn(old(store.written), plan, since);
      case Clears =>
        var _, _ := store.Clear();
        TellsOn(old(store.written), plan, since);
      case Replaces(other, runBy) =>
        if other.id != plan.id {
          Replace(other, runBy, plan, since);
        }
    }

    /** A cleared plan, another one in its place, and perhaps its start. */
    method Replace(other: Plan, runBy: Option<string>, ghost plan: Plan, ghost since: Since)
      requires store.Valid() && AllTell(plan, since) && other.id != plan.id
      modifies store
      ensures store.Valid() && old(store.written) <= store.written && AllTell(plan, since)
      ensures !store.stateErr ==> !Owns(store.plan, plan.id)
      ensures old(store.stateErr) ==> store.stateErr
      ensures Owns(store.plan, plan.id) ==> store.plan == old(store.plan)
    {
      var _, _ := store.Clear();
      TellsOn(old(store.written), plan, since);
      Put(other, plan, since);
      if runBy.Some? {
        Begin(runBy.value, plan, since);
      }
    }

    method Put(other: Plan, ghost plan: Plan, ghost since: Since)
      requires store.Valid() && AllTell(plan, since) && other.id != plan.id && (!store.stateErr ==> store.plan.None?)
      modifies store
      ensures store.Valid() && old(store.written) <= store.written && AllTell(plan, since)
      ensures Owns(store.plan, plan.id) ==> store.plan == old(store.plan)
      ensures (old(store.stateErr) ==> store.stateErr) && (!store.stateErr ==> !Owns(store.plan, plan.id))
    {
      var _ := store.Set(Fresh(other));
      TellsOn(old(store.written), plan, since);
    }

    method Begin(user: string, ghost plan: Plan, ghost since: Since)
      requires store.Valid() && AllTell(plan, since) && (!store.stateErr ==> !Owns(store.plan, plan.id))
      modifies store
      ensures store.Valid() && old(store.written) <= store.written && AllTell(plan, since)
      ensures Owns(store.plan, plan.id) ==> store.plan == old(store.plan)
      ensures (old(store.stateErr) ==> store.stateErr) && (!store.stateErr ==> !Owns(store.plan, plan.id))
    {
      var _, _, _ := store.TryStartExecution(user);
      TellsOn(old(store.written), plan, since);
    }

    /** Whether this plan is stored, and a cancel request for it pending, is as before; an unavailable store stays so. */
    twostate predicate KeepsAsked(plan: Plan)
      reads this, store
    {
      && store.IsCancelRequested(plan.id) == old(store.IsCancelRequested(plan.id))
      && Owns(store.plan, plan.id) == old(Owns(store.plan, plan.id)) && (old(store.stateErr) ==> store.stateErr)
    }

    /** No other request but to cancel. */
    ghost predicate Quiet()
    {
      forall k :: others(k) in {Nobody, Cancels}
    }

    /** A cancel request comes before one of these items is looked at. */
    ghost predicate CancelComes(from: nat, upTo: nat)
    {
      exists k: nat :: from <= k < upTo && others(k).Cancels?
    }

    /** reportProgress with the service's callback: a failed write is only logged. */
    method ReportProgress(plan: Plan, result: RunResult, current: Option<string>, ghost items: seq<ItemResult>,
                          ghost since: Since)
      requires store.Valid() && (!store.stateErr ==> Holds(store.plan, plan, items))
      requires Reported(plan, since.first, since.start, result, world, hash) && AllTell(plan, since)
      requires items <= result.items && Accounts(plan, result, |result.items|)
      modifies store
      ensures AllTell(plan, since)
      ensures store.Valid() && old(store.written) <= store.written && (!store.stateErr ==> Holds(store.plan, plan, result.items))
      ensures !store.stateErr && Owns(store.plan, plan.id) ==>
                && store.plan.value.processed == |result.items| && store.plan.value.total == |plan.items|
                && store.plan.value.current == current && store.plan.value.result == Some(result) && store.disk == store.plan
      ensures KeepsAsked(plan)
    {
      if !store.stateErr && Owns(store.plan, plan.id) {
        ProgressIsSound(store.plan.value, plan, result, items, current);
      }
      var _ := store.UpdateExecutionProgress(plan.id, |result.items|, |plan.items|, current, Some(result));
      BeforeIsKept(plan, since.first, since.start, |result.items|, world, hash);
      TellsOn(old(store.written), plan, since);
    }

    /** One item: the loop body of Execute between the two progress reports. */
    method ImportItem(plan: Plan, index: nat, result: RunResult) returns (after: RunResult, failed: bool)
      requires index < |plan.items|
      modifies this`pages
      ensures Progress(after, pages) == Step(Progress(result, old(pages)), plan.items[index], world(index, old(pages)), hash)
      ensures failed == FailedIn(plan.items[index], world(index, old(pages)), old(pages))
    {
      var item, e := plan.items[index], world(index, pages);
      var error: Option<string> := None;
      failed := false;
      match item.action {
      case Create =>
        pages := e.ensurePath.pages;
        if e.ensurePath.error.Some? {
          error := e.ensurePath.error;
        } else if !e.pageMade {
          error := Some("could not create page");
        } else if e.load.Some? {
          error := e.load;
        } else if e.build.Some? {
          error := e.build;
        } else {
          pages := e.transform.pages;
          if e.transform.error.Some? {
            error := e.transform.error;
          } else {
            pages := e.update.pages;
            error := e.update.error;
          }
        }
        failed := error.Some?;
      case Skip =>
      case Unknown => error := Some("unknown action");
      }
      var made := item.action == Create && !failed;
      after := result.(items := result.items + [ItemResult(item.source, item.target, if made then Created else Skipped, error, item.notes)]);
      if made {
        after := after.(imported := after.imported + 1);
      } else {
        after := after.(skipped := after.skipped + 1);
      }
      if !failed {
        after := after.(treeHash := hash(pages));
      }
    }

    /** The run after one item more, and the report that follows it unless it failed. */
    lemma AfterItem(plan: Plan, index: nat, at: Progress, since: Since)
      requires index == |at.result.items| < |plan.items| && Accounts(plan, at.result, index) && HasCome(plan, since, at)
      ensures
        var next := Step(at, plan.items[index], world(index, at.pages), hash);
        && Accounts(plan, next.result, index + 1) && at.result.items <= next.result.items && HasCome(plan, since, next)
        && (!FailedIn(plan.items[index], world(index, at.pages), at.pages) ==>
              Reported(plan, since.first, since.start, next.result, world, hash))
    {
      RunGoesOn(plan, since.first, since.start, index, world, hash, at);
      StepAccounts(plan, at, index, world(index, at.pages), hash);
    }

    /** The loop body of Execute. A failed item is not followed by a report of its own. */
    method NextItem(plan: Plan, index: nat, result: RunResult, ghost since: Since)
        returns (after: RunResult, canceled: bool)
      requires index == |result.items| < |plan.items| && Accounts(plan, result, index)
      requires HasCome(plan, since, Progress(result, pages)) && AllTell(plan, since)
      requires store.Valid() && (!store.stateErr ==> Holds(store.plan, plan, result.items))
      modifies this`pages, store
      ensures AllTell(plan, since)
      ensures store.Valid() && old(store.written) <= store.written && (!store.stateErr ==> Holds(store.plan, plan, after.items))
      ensures canceled ==> after == result && pages == old(pages)
      ensures others(index).Nobody? ==> canceled == old(store.IsCancelRequested(plan.id))
      ensures others(index).Cancels? && !old(store.stateErr) && Owns(old(store.plan), plan.id) ==> canceled
      ensures canceled ==> others(index).Cancels? || old(store.IsCancelRequested(plan.id))
      ensures store.IsCancelRequested(plan.id) == canceled
      ensures (old(store.stateErr) ==> store.stateErr) &&
              (others(index) in {Nobody, Cancels} && Owns(old(store.plan), plan.id) ==> Owns(store.plan, plan.id))
      ensures others(index) in {Nobody, Cancels} && old(store.IsCancelRequested(plan.id)) ==> canceled
      ensures !canceled ==> Accounts(plan, after, index + 1) && HasCome(plan, since, Progress(after, pages))
      ensures !canceled ==> Progress(after, pages) == Step(Progress(result, old(pages)), plan.items[index], world(index, old(pages)), hash)
    {
      Receive(others(index), plan, result.items, since);
      if store.IsCancelRequested(plan.id) {
        return result, true;
      }
      ReportProgress(plan, result, Some(plan.items[index].source), result.items, since);
      AfterItem(plan, index, Progress(result, pages), since);
      var failed: bool;
      after, failed := ImportItem(plan, index, result);
      if failed {
        return after, false;
      }
      ReportProgress(plan, after, None, result.items, since);
      return after, false;
    }

    /** The end of Execute: the final tree hash is recorded and reported. */
    method Close(plan: Plan, result: RunResult, ghost since: Since) returns (closed: RunResult)
      requires Accounts(plan, result, |result.items|) && |result.items| == |plan.items|
      requires HasCome(plan, since, Progress(result, pages)) && AllTell(plan, since)
      requires store.Valid() && (!store.stateErr ==> Holds(store.plan, plan, result.items))
      modifies store
      ensures AllTell(plan, since)
      ensures store.Valid() && old(store.written) <= store.written && (!store.stateErr ==> Holds(store.plan, plan, closed.items))
      ensures closed == result.(treeHash := hash(pages)) && Accounts(plan, closed, |result.items|)
      ensures old(store.stateErr) ==> store.stateErr
    {
      closed := result.(treeHash := hash(pages));
      ReportProgress(plan, closed, None, result.items, since);
    }

    /** The run has come to `now`, after now's items. */
    ghost predicate HasCome(plan: Plan, since: Since, now: Progress)
    {
      since.start <= |now.result.items| <= |plan.items| && now == Run(plan, since.first, since.start, |now.result.items|, world, hash)
    }

    /**
     A run that began at item `start` has come to item `at`. It is canceled only where a request for that was
     pending at the start or has come since; and while no other request comes and the store can be written,
     such a request does cancel it.
     */
    ghost predicate AsAsked(plan: Plan, start: nat, asked: Asked, at: nat, canceled: bool)
      reads this, store
    {
      WellAsked(Seen(store.IsCancelRequested(plan.id), Owns(store.plan, plan.id), store.stateErr), start, asked, at, canceled)
    }

    ghost predicate WellAsked(now: Seen, start: nat, asked: Asked, at: nat, canceled: bool)
    {
      && start <= at && (now.pending == if start == at && !canceled then asked.pending else canceled)
      && (canceled ==> asked.pending || CancelComes(start, at + 1))
      && (Quiet() && asked.owned ==> now.owned)
      && (Quiet() && asked.owned && !now.stateErr && !canceled && start < at ==> !asked.pending && !CancelComes(start, at))
    }

    /** The run has ended as cancel requests had it: canceled only on one, and, where the store stayed writable, on every one. */
    ghost predicate EndsAsAsked(plan: Plan, start: nat, asked: Asked, result: Option<RunResult>, how: Outcome)
      reads this, store
    {
      && (how.WasCanceled? ==>
            result.Some? && |result.value.items| < |plan.items| && (asked.pending || CancelComes(start, |result.value.items| + 1)))
      && (how.Done? && Quiet() && asked.owned && !store.stateErr && start < |plan.items| ==>
            !asked.pending && !CancelComes(start, |plan.items|))
    }

    lemma NextAsked(was: Seen, now: Seen, start: nat, asked: Asked, at: nat, canceled: bool)
      requires WellAsked(was, start, asked, at, false) && now.pending == canceled && (was.stateErr ==> now.stateErr)
      requires canceled ==> others(at).Cancels? || was.pending
      requires others(at) in {Nobody, Cancels} ==> (was.owned ==> now.owned) && (was.pending ==> canceled)
      requires others(at).Cancels? && !was.stateErr && was.owned ==> canceled
      ensures WellAsked(now, start, asked, if canceled then at else at + 1, canceled)
    {
      if canceled && !asked.pending {
        assert others(at).Cancels?;
      }
    }

    /** One item more, or a cancel request obeyed. */
    method GoOn(plan: Plan, result: RunResult, ghost since: Since, ghost asked: Asked) returns (after: RunResult, canceled: bool)
      requires |result.items| < |plan.items| && Accounts(plan, result, |result.items|) && AsAsked(plan, since.start, asked, |result.items|, false)
      requires HasCome(plan, since, Progress(result, pages)) && AllTell(plan, since)
      requires store.Valid() && (!store.stateErr ==> Holds(store.plan, plan, result.items))
      modifies this`pages, store
      ensures AllTell(plan, since)
      ensures store.Valid() && old(store.written) <= store.written && (!store.stateErr ==> Holds(store.plan, plan, after.items))
      ensures Accounts(plan, after, |after.items|) && HasCome(plan, since, Progress(after, pages))
      ensures if canceled then after == result else |after.items| == |result.items| + 1
      ensures old(store.stateErr) ==> store.stateErr
      ensures canceled ==> |result.items| < |plan.items|
      ensures AsAsked(plan, since.start, asked, |after.items|, canceled)
    {
      ghost var was := Seen(store.IsCancelRequested(plan.id), Owns(store.plan, plan.id), store.stateErr);
      after, canceled := NextItem(plan, |result.items|, result, since);
      NextAsked(was, Seen(store.IsCancelRequested(plan.id), Owns(store.plan, plan.id), store.stateErr), since.start, asked, |result.items|, canceled);
    }

    /** The loop of Execute. */
    method RunLoop(plan: Plan, from: RunResult, ghost since: Since, ghost asked: Asked) returns (result: RunResult, canceled: bool)
      requires AsAsked(plan, since.start, asked, since.start, false)
      requires since.start == |from.items| && Accounts(plan, from, |from.items|) && since.first == Progress(from, pages)
      requires store.Valid() && (!store.stateErr ==> Holds(store.plan, plan, from.items)) && AllTell(plan, since)
      modifies this`pages, store
      ensures AllTell(plan, since)
      ensures store.Valid() && old(store.written) <= store.written && (!store.stateErr ==> Holds(store.plan, plan, result.items))
      ensures Accounts(plan, result, |result.items|) && HasCome(plan, since, Progress(result, pages))
      ensures !canceled ==> |result.items| == |plan.items|
      ensures (old(store.stateErr) ==> store.stateErr) && (canceled ==> |result.items| < |plan.items|)
      ensures EndsAsAsked(plan, since.start, asked, Some(result), if canceled then WasCanceled else Done)
    {
      result, canceled := from, false;
      while |result.items| < |plan.items| && !canceled
        invariant Accounts(plan, result, |result.items|) && HasCome(plan, since, Progress(result, pages)) && AllTell(plan, since)
        invariant store.Valid() && old(store.written) <= store.written
        invariant !store.stateErr ==> Holds(store.plan, plan, result.items)
        invariant (old(store.stateErr) ==> store.stateErr) && (canceled ==> |result.items| < |plan.items|)
        invariant AsAsked(plan, since.start, asked, |result.items|, canceled)
        decreases !canceled, |plan.items| - |result.items|
      {
        result, canceled := GoOn(plan, result, since, asked);
      }
    }

    /** The loop of Execute and what is around it. */
    method RunItems(plan: Plan, from: RunResult, ghost since: Since) returns (result: RunResult, how: Outcome)
      requires since.start == |from.items| && Accounts(plan, from, |from.items|) && since.first == Progress(from, pages)
      requires store.Valid() && (!store.stateErr ==> Holds(store.plan, plan, from.items)) && AllTell(plan, since)
      modifies this`pages, store
      ensures AllTell(plan, since)
      ensures store.Valid() && old(store.written) <= store.written && (!store.stateErr ==> Holds(store.plan, plan, result.items))
      ensures how in {Done, WasCanceled} && Accounts(plan, result, |result.items|) && |from.items| <= |result.items|
      ensures how == Done ==> |result.items| == |plan.items|
      ensures
        var reached := Run(plan, since.first, since.start, |result.items|, world, hash);
        pages == reached.pages && result == if how == Done then reached.result.(treeHash := hash(pages)) else reached.result
      ensures EndsAsAsked(plan, since.start, old(Asked(store.IsCancelRequested(plan.id), Owns(store.plan, plan.id))), Some(result), how)
      ensures old(store.stateErr) ==> store.stateErr
    {
      ReportProgress(plan, from, None, from.items, since);
      var canceled;
      result, canceled := RunLoop(plan, from, since, Asked(store.IsCancelRequested(plan.id), Owns(store.plan, plan.id)));
      if canceled {
        return result, WasCanceled;
      }
      result := Close(plan, result, since);
      return result, Done;
    }

    /** The plan is too old for the wiki as the run finds it, or a resume finds no hash to compare. */
    predicate IsStale(plan: Plan, start: nat, initial: Option<RunResult>, before: Pages)
    {
      if start == 0 then hash(before) != plan.treeHash
      else initial.None? || initial.value.treeHash == "" || initial.value.treeHash != hash(before)
    }

    /**
     Execute. It refuses a stale plan; otherwise its result and the wiki are those of the run up to the
     item where it was canceled, or to the end. Whatever it and other requests write on the way is sound,
     and what the file says of the run is what the run may report.
     */
    method Execute(plan: Plan, start: nat, initial: Option<RunResult>) returns (result: Option<RunResult>, how: Outcome)
      requires store.Valid() && start <= |plan.items|
      requires if initial.None? then start == 0 else Accounts(plan, initial.value, start)
      requires !store.stateErr ==> Holds(store.plan, plan, if initial.None? then [] else initial.value.items)
      requires Owns(store.plan, plan.id) ==> store.plan.value.result == initial
      modifies this`pages, store
      ensures store.Valid() && old(store.written) <= store.written
      ensures RunsTo(plan, start, initial, old(pages), result, how)
      ensures how.Stopped? ==> store.written == old(store.written) && store.plan == old(store.plan) && store.stateErr == old(store.stateErr)
      ensures !how.Stopped? ==> Accounts(plan, result.value, |result.value.items|)
      ensures !how.Stopped? && !store.stateErr ==> Holds(store.plan, plan, result.value.items)
      ensures !how.Stopped? ==> AllTell(plan, Since(Progress(StartOf(initial, hash(old(pages))), old(pages)), start, |old(store.written)|))
      ensures EndsAsAsked(plan, start, old(Asked(store.IsCancelRequested(plan.id), Owns(store.plan, plan.id))), result, how)
      ensures how.Stopped? <==> IsStale(plan, start, initial, old(pages))
      ensures old(store.stateErr) ==> store.stateErr
    {
      var before := hash(pages);
      var expected := plan.treeHash;
      if start > 0 {
        if initial.None? || initial.value.treeHash == "" {
          return None, Stopped("resume state missing tree hash");
        }
        expected := initial.value.treeHash;
      }
      if expected != before {
        return None, Stopped("plan is stale: expected tree_hash " + expected + " but got " + before);
      }
      var r := if initial.Some? then initial.value else RunResult(0, 0, 0, [], "", before);
      if r.treeHashBefore == "" {
        r := r.(treeHashBefore := before);
      }
      assert r == StartOf(initial, before);
      r, how := RunItems(plan, r, Since(Progress(r, pages), start, |store.written|));
      return Some(r), how;
    }

    /** FinishExecution behind a run. */
    method Finish(plan: Plan, result: Option<RunResult>, how: Outcome, ghost since: Since) returns (err: StoreError)
      requires store.Valid() && (how.Stopped? || AllTell(plan, since))
      requires !store.stateErr ==> Holds(store.plan, plan, if result.Some? then result.value.items else if Owns(store.plan, plan.id) then ItemsOf(store.plan.value) else [])
      requires result.Some? ==> Accounts(plan, result.value, |result.value.items|)
      requires if how.Stopped? then result.None? else result.Some? && (how.Done? ==> |result.value.items| == |plan.items|)
      modifies store
      ensures store.Valid() && old(store.written) <= store.written && (how.Stopped? || AllTell(plan, since))
      ensures old(store.stateErr) ==> store.stateErr
      ensures err == (if store.stateErr then Unavailable else NoError)
      ensures err == NoError && Owns(store.plan, plan.id) ==> store.plan.value.plan == Some(plan) && Over(store.plan.value, result, how)
    {
      if !store.stateErr && Owns(store.plan, plan.id) {
        FinishIsSound(store.plan.value, plan, result, how);
      }
      err := store.FinishExecution(plan.id, result, how);
      if !how.Stopped? {
        TellsOn(old(store.written), plan, since);
      }
    }

    /**
     How a run from item `start` ends that began with the given result, wiki and pending cancel request: refused,
     exactly when the plan is stale; canceled, only by a request; or done. Without such a request a plan that is
     not stale is done. As long as the plan is stored, and the store available, that is what the store says.
     */
    ghost predicate RunEnds(plan: Plan, start: nat, initial: Option<RunResult>, pending: bool, before: Pages,
                            result: Option<RunResult>, how: Outcome)
      requires start <= |plan.items|
      reads this, store
    {
      && RunsTo(plan, start, initial, before, result, how)
      && (how.Stopped? <==> IsStale(plan, start, initial, before))
      && (how.Done? ==> Accounts(plan, result.value, |plan.items|))
      && EndsAsAsked(plan, start, Asked(pending, true), result, how)
      && (how.WasCanceled? ==> pending || exists k :: others(k).Cancels?)
      && (!store.stateErr && Owns(store.plan, plan.id) ==> store.plan.value.plan == Some(plan) && Over(store.plan.value, result, how))
    }

    /** executeStoredPlan and FinishExecution. */
    method ExecuteAndFinish(sp: StoredPlan) returns (result: Option<RunResult>, how: Outcome, err: StoreError)
      requires store.Valid() && !store.stateErr && sp.plan.Some?
      requires sp.status == Running && Sound(sp) && store.plan.Some? && sp == store.plan.value.(userId := sp.userId)
      modifies this`pages, store
      ensures store.Valid() && old(store.written) <= store.written
      ensures RunEnds(sp.plan.value, sp.processed, sp.result, sp.cancelRequested, old(pages), result, how)
      ensures !how.Stopped? ==>
                AllTell(sp.plan.value, Since(Progress(StartOf(sp.result, hash(old(pages))), old(pages)), sp.processed, |old(store.written)|))
      ensures err == (if store.stateErr then Unavailable else NoError)
    {
      var plan := sp.plan.value;
      result, how := Execute(plan, sp.processed, sp.result);
      err := Finish(plan, result, how, Since(Progress(StartOf(sp.result, hash(old(pages))), old(pages)), sp.processed, |old(store.written)|));
    }

    /**
     ExecuteCurrentPlan, and StartCurrentPlanExecution with its goroutine. A cancel request left over from an
     earlier run of the plan does not count.
     */
    method ExecuteCurrentPlan(userId: string) returns (result: Option<RunResult>, how: Outcome, started: bool)
      requires store.Valid()
      modifies this`pages, store
      ensures store.Valid() && old(store.written) <= store.written
      ensures !started ==> pages == old(pages) && result.None?
      ensures started <==> !old(store.stateErr) && store.healthy(old(store.attempts)) && old(store.plan).Some? &&
                           old(store.plan).value.plan.Some? && old(store.plan).value.status !in {Running, Completed}
      ensures started ==> RunEnds(old(store.plan).value.plan.value, 0, None, false, old(pages), result, how)
    {
      result, how := None, Stopped("not started");
      var sp;
      var err;
      sp, started, err := store.TryStartExecution(userId);
      if started {
        result, how, err := ExecuteAndFinish(sp.value);
      }
    }

    /** resumeInterruptedExecution, when the service starts; a cancel request that the file holds counts. */
    method ResumeInterruptedExecution() returns (result: Option<RunResult>, how: Outcome, resumed: bool)
      requires store.Valid()
      modifies this`pages, store
      ensures store.Valid() && old(store.written) <= store.written
      ensures resumed <==> !old(store.stateErr) && old(store.plan).Some? && old(store.plan).value.status == Running
      ensures !resumed ==> result.None? && pages == old(pages) && store.written == old(store.written)
      ensures resumed ==>
                && old(store.plan).value.plan.Some? && old(store.plan).value.processed <= |old(store.plan).value.plan.value.items|
                && RunEnds(old(store.plan).value.plan.value, old(store.plan).value.processed, old(store.plan).value.result,
                           old(store.plan).value.cancelRequested, old(pages), result, how)
    {
      result, how, resumed := None, Stopped("not running"), false;
      var sp, err;
      sp, err := store.Get();
      if sp.Some? && sp.value.status == Running {
        resumed := true;
        var snapshot := if sp.value.userId == "" then sp.value.(userId := "system") else sp.value;
        result, how, err := ExecuteAndFinish(snapshot);
      }
    }
  }

  /** One life of the process: how its writes and calls go, what it finds in the wiki, and when it dies. */
  datatype Life = Life(healthy: nat -> bool, readable: bool, world: World, others: nat -> Visit, found: Pages,
                       user: Option<string>, diesAt: nat)

  lemma HistoriesJoin(a: seq<Option<StoredPlan>>, b: seq<Option<StoredPlan>>, k: nat)
    requires a != [] && b != [] && SoundHistory(a) && SoundHistory(b) && a[|a| - 1] == b[0] && k < |b|
    ensures SoundHistory(a + b[1..k + 1])
  {
    var c := a + b[1..k + 1];
    forall s | s in c && s.Some?
      ensures Sound(s.value)
    {
      if s !in a { assert s in b; }
    }
    forall i | 0 <= i < |c| - 1
      ensures Extends(c[i], c[i + 1])
    {
      if i >= |a| - 1 {
        assert c[i] == b[i - (|a| - 1)] && c[i + 1] == b[i + 1 - (|a| - 1)];
      }
    }
  }

  /** What the file has held when each life, of which `wrote` is all it would have written, was cut short where it died. */
  ghost function CutAndJoined(first: Option<StoredPlan>, lives: seq<Life>, wrote: seq<seq<Option<StoredPlan>>>): seq<Option<StoredPlan>>
    requires |wrote| == |lives| && forall i :: 0 <= i < |wrote| ==> wrote[i] != []
  {
    if lives == [] then [first]
    else
      var n, last := |lives| - 1, wrote[|lives| - 1];
      CutAndJoined(first, lives[..n], wrote[..n]) + last[1..lives[n].diesAt % |last| + 1]
  }

  lemma OneLifeMore(first: Option<StoredPlan>, lives: seq<Life>, wrote: seq<seq<Option<StoredPlan>>>, i: nat, last: seq<Option<StoredPlan>>)
    requires i < |lives| && |wrote| == i && last != [] && forall j :: 0 <= j < i ==> wrote[j] != []
    ensures CutAndJoined(first, lives[..i + 1], wrote + [last]) ==
              CutAndJoined(first, lives[..i], wrote) + last[1..lives[i].diesAt % |last| + 1]
  {
    assert lives[..i + 1][..i] == lives[..i] && (wrote + [last])[..i] == wrote;
  }

  /** A life that is not cut short: what it finds is resumed, and then the plan may be started. */
  method OneLife(life: Life, disk: Option<StoredPlan>, hash: Pages -> string) returns (wrote: seq<Option<StoredPlan>>)
    requires disk.Some? ==> Sound(disk.value)
    ensures wrote != [] && wrote[0] == disk && SoundHistory(wrote)
  {
    var store := new PlanStore(disk, life.readable, life.healthy);
    var service := new ImporterService(store, hash, life.world, life.others, life.found);
    ghost var loaded := store.written;
    var _, _, _ := service.ResumeInterruptedExecution();
    if life.user.Some? {
      var _, _, _ := service.ExecuteCurrentPlan(life.user.value);
    }
    assert loaded <= store.written && store.written[0] == loaded[0];
    return store.written;
  }

  /**
   Any number of crashes and resumes, each at any write of the file: every content the file ever has is
   sound, and recorded items stay recorded while their run lasts.
   */
  method ManyLives(first: Option<StoredPlan>, lives: seq<Life>, hash: Pages -> string)
      returns (history: seq<Option<StoredPlan>>, ghost wrote: seq<seq<Option<StoredPlan>>>)
    requires first.Some? ==> Sound(first.value)
    ensures SoundHistory(history) && history != [] && history[0] == first
    ensures |wrote| == |lives| && (forall i :: 0 <= i < |wrote| ==> wrote[i] != []) && history == CutAndJoined(first, lives, wrote)
  {
    history, wrote := [first], [];
    for i := 0 to |lives|
      invariant SoundHistory(history) && history != [] && history[0] == first
      invariant |wrote| == i && (forall j :: 0 <= j < i ==> wrote[j] != []) && history == CutAndJoined(first, lives[..i], wrote)
    {
      var disk := history[|history| - 1];
      assert disk in history;
      var written := OneLife(lives[i], disk, hash);
      var k := lives[i].diesAt % |written|;
      HistoriesJoin(history, written, k);
      OneLifeMore(first, lives, wrote, i, written);
      history, wrote := history + written[1..k + 1], wrote + [written];
    }
    assert lives[..|lives|] == lives;
  }
}

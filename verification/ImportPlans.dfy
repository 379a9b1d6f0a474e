/**
 What an import run records: the plan, the stored state and the per-item results of
 internal/importer/plan_store.go and internal/importer/executor.go, and the run as a function of what
 the wiki and the source files do.
 */
module ImportPlans {
  import opened Common

  datatype PlanAction = Create | Skip | Unknown

  datatype PlanItem = PlanItem(source: string, target: string, action: PlanAction, notes: seq<string>)

  datatype Plan = Plan(id: string, treeHash: string, items: seq<PlanItem>)

  datatype ItemAction = Created | Updated | Skipped

  datatype ItemResult = ItemResult(source: string, target: string, action: ItemAction, error: Option<string>, notes: seq<string>)

  datatype RunResult = RunResult(imported: nat, updated: nat, skipped: nat, items: seq<ItemResult>,
                                 treeHash: string, treeHashBefore: string)

  datatype Status = Planned | Running | Completed | Failed | Canceled

  datatype StoredPlan = StoredPlan(plan: Option<Plan>, status: Status, userId: string, cancelRequested: bool,
                                   result: Option<RunResult>, error: Option<string>,
                                   processed: nat, total: nat, current: Option<string>)

  /** How a run ended. */
  datatype Outcome = Done | WasCanceled | Stopped(why: string)

  // ----- what a stored state must say -----

  function Count(items: seq<ItemResult>, action: ItemAction): nat
  {
    if items == [] then 0 else Count(items[..|items| - 1], action) + (if items[|items| - 1].action == action then 1 else 0)
  }

  /** The recorded result is about this plan item, and is one that its action can have. */
  predicate Records(r: ItemResult, item: PlanItem)
  {
    && r.source == item.source && r.target == item.target && r.notes == item.notes
    && match item.action
       case Create => if r.error.None? then r.action == Created else r.action == Skipped
       case Skip => r.action == Skipped && r.error.None?
       case Unknown => r.action == Skipped && r.error == Some("unknown action")
  }

  /** The result accounts for the first k items of the plan: each once, in plan order, and counted. */
  ghost predicate Accounts(plan: Plan, r: RunResult, k: nat)
  {
    && k == |r.items| <= |plan.items|
    && (forall i :: 0 <= i < k ==> Records(r.items[i], plan.items[i]))
    && r.imported == Count(r.items, Created) && r.skipped == Count(r.items, Skipped)
    && r.imported + r.skipped == k && r.updated == 0
  }

  function ItemsOf(sp: StoredPlan): seq<ItemResult>
  {
    if sp.result.Some? then sp.result.value.items else []
  }

  ghost predicate Sound(sp: StoredPlan)
  {
    match sp.status
    case Planned => sp.result.None?
    case Running =>
      sp.plan.Some? && sp.total == |sp.plan.value.items| &&
      if sp.result.None? then sp.processed == 0 else Accounts(sp.plan.value, sp.result.value, sp.processed)
    case Completed =>
      sp.plan.Some? && sp.result.Some? && sp.processed == sp.total == |sp.plan.value.items| &&
      Accounts(sp.plan.value, sp.result.value, sp.total)
    case Failed => sp.plan.Some? && sp.result.None?
    case Canceled =>
      sp.plan.Some? && sp.result.Some? && sp.processed <= |sp.result.value.items| <= sp.processed + 1 &&
      Accounts(sp.plan.value, sp.result.value, |sp.result.value.items|)
  }

  /** b may follow a in the file: while a run of one plan lasts, items once recorded stay recorded. */
  ghost predicate Extends(a: Option<StoredPlan>, b: Option<StoredPlan>)
  {
    a.Some? && b.Some? && a.value.plan == b.value.plan && a.value.status == Running && b.value.status != Failed ==>
      ItemsOf(a.value) <= ItemsOf(b.value)
  }

  // ----- the run -----

  /** The wiki's pages by path. */
  type Pages = map<string, string>

  /** What a call did to the wiki, and its error. */
  datatype Call = Call(pages: Pages, error: Option<string>)

  /** What happens while one item is imported: each call the executor may make. */
  datatype Effects = Effects(ensurePath: Call, pageMade: bool, load: Option<string>, build: Option<string>,
                             transform: Call, update: Call)

  datatype Progress = Progress(result: RunResult, pages: Pages)

  /** The pages after the item, and the error that made it fail. */
  function Attempt(item: PlanItem, e: Effects, pages: Pages): Call
  {
    match item.action
    case Create =>
      if e.ensurePath.error.Some? then e.ensurePath
      else if !e.pageMade then Call(e.ensurePath.pages, Some("could not create page"))
      else if e.load.Some? then Call(e.ensurePath.pages, e.load)
      else if e.build.Some? then Call(e.ensurePath.pages, e.build)
      else if e.transform.error.Some? then e.transform
      else e.update
    case Skip => Call(pages, None)
    case Unknown => Call(pages, Some("unknown action"))
  }

  /** The errors of the calls for a page, in the order in which they are made; a page that is not there counts as one. */
  function CallErrors(e: Effects): (errors: seq<Option<string>>)
    ensures |errors| == 6
  {
    [e.ensurePath.error, if e.pageMade then None else Some("could not create page"), e.load, e.build, e.transform.error, e.update.error]
  }

  /** The i-th call is the first that fails. */
  predicate FailsFirst(e: Effects, i: nat)
  {
    i < 6 && CallErrors(e)[i].Some? && forall j :: 0 <= j < i ==> CallErrors(e)[j].None?
  }

  /**
   A page to create fails exactly where some call fails, with the first such call's error, and no later call
   is made: the wiki is as the last call made has left it. Of the six, the third and fourth leave it alone.
   */
  lemma AttemptStopsAtFirst(item: PlanItem, e: Effects, pages: Pages)
    requires item.action == Create
    ensures Attempt(item, e, pages).error.Some? <==> exists i :: 0 <= i < 6 && CallErrors(e)[i].Some?
    ensures forall i: nat :: FailsFirst(e, i) ==>
              Attempt(item, e, pages) == Call(if i < 4 then e.ensurePath.pages else if i == 4 then e.transform.pages else e.update.pages, CallErrors(e)[i])
    ensures (forall i :: 0 <= i < 6 ==> CallErrors(e)[i].None?) ==> Attempt(item, e, pages).pages == e.update.pages
  {
    var errors, made := CallErrors(e), if e.pageMade then None else Some("could not create page");
    assert errors[0] == e.ensurePath.error && errors[1] == made && errors[2] == e.load;
    assert errors[3] == e.build && errors[4] == e.transform.error && errors[5] == e.update.error;
  }

  /** The item failed in one of its calls: the loop goes on without a progress report. */
  predicate FailedIn(item: PlanItem, e: Effects, pages: Pages)
  {
    item.action == Create && Attempt(item, e, pages).error.Some?
  }

  function Step(p: Progress, item: PlanItem, e: Effects, hash: Pages -> string): Progress
  {
    var done := Attempt(item, e, p.pages);
    var made := item.action == Create && done.error.None?;
    var items := p.result.items + [ItemResult(item.source, item.target, if made then Created else Skipped, done.error, item.notes)];
    Progress(p.result.(imported := p.result.imported + (if made then 1 else 0),
                       skipped := p.result.skipped + (if made then 0 else 1),
                       items := items,
                       treeHash := if FailedIn(item, e, p.pages) then p.result.treeHash else hash(done.pages)),
             done.pages)
  }

  /** A page that could not be made leaves the recorded hash as it was; after any other item it is that of the wiki. */
  lemma HashAfterStep(p: Progress, item: PlanItem, e: Effects, hash: Pages -> string)
    ensures
      var after := Step(p, item, e, hash);
      after.result.treeHash ==
        if item.action == Create && exists i :: 0 <= i < 6 && CallErrors(e)[i].Some? then p.result.treeHash else hash(after.pages)
    ensures item.action != Create ==> Step(p, item, e, hash).pages == p.pages
  {
    if item.action == Create { AttemptStopsAtFirst(item, e, p.pages); }
  }

  type World = (nat, Pages) -> Effects

  /** The run from item i up to item k. */
  function Run(plan: Plan, p: Progress, i: nat, k: nat, world: World, hash: Pages -> string): Progress
    requires i <= k <= |plan.items|
    decreases k
  {
    if i == k then p
    else
      var before := Run(plan, p, i, k - 1, world, hash);
      Step(before, plan.items[k - 1], world(k - 1, before.pages), hash)
  }

  lemma RunGoesOn(plan: Plan, p: Progress, i: nat, k: nat, world: World, hash: Pages -> string, at: Progress)
    requires i <= k < |plan.items| && at == Run(plan, p, i, k, world, hash)
    ensures Run(plan, p, i, k + 1, world, hash) == Step(at, plan.items[k], world(k, at.pages), hash)
  {
  }

  /** What Execute starts from. */
  function StartOf(initial: Option<RunResult>, before: string): RunResult
  {
    if initial.None? then RunResult(0, 0, 0, [], "", before)
    else if initial.value.treeHashBefore == "" then initial.value.(treeHashBefore := before)
    else initial.value
  }

  /** Why Execute refuses to start; None when it starts. */
  function Refusal(plan: Plan, start: nat, initial: Option<RunResult>, now: string): Option<string>
  {
    if start > 0 && (initial.None? || initial.value.treeHash == "") then Some("resume state missing tree hash")
    else
      var expected := if start > 0 then initial.value.treeHash else plan.treeHash;
      if expected != now then Some("plan is stale: expected tree_hash " + expected + " but got " + now) else None
  }

  // ----- every item is accounted for -----

  lemma StepAccounts(plan: Plan, p: Progress, k: nat, e: Effects, hash: Pages -> string)
    requires k < |plan.items| && Accounts(plan, p.result, k)
    ensures Accounts(plan, Step(p, plan.items[k], e, hash).result, k + 1)
    ensures p.result.items <= Step(p, plan.items[k], e, hash).result.items
  {
    var after := Step(p, plan.items[k], e, hash).result;
    assert after.items[..|after.items| - 1] == p.result.items;
  }

  lemma {:induction false} RunAccounts(plan: Plan, p: Progress, i: nat, k: nat, world: World, hash: Pages -> string)
    requires i <= k <= |plan.items| && Accounts(plan, p.result, i)
    ensures Accounts(plan, Run(plan, p, i, k, world, hash).result, k)
    ensures p.result.items <= Run(plan, p, i, k, world, hash).result.items
  {
    if i < k {
      RunAccounts(plan, p, i, k - 1, world, hash);
      var before := Run(plan, p, i, k - 1, world, hash);
      StepAccounts(plan, before, k - 1, world(k - 1, before.pages), hash);
    }
  }

  // ----- when an interrupted run can be resumed -----

  /** The last item of a run from item i up to item k that did not fail. */
  function LastGood(plan: Plan, p: Progress, i: nat, k: nat, world: World, hash: Pages -> string): (r: Option<nat>)
    requires i <= k <= |plan.items|
    ensures r.Some? ==> i <= r.value < k
    decreases k
  {
    if k == i then None
    else
      var before := Run(plan, p, i, k - 1, world, hash);
      if FailedIn(plan.items[k - 1], world(k - 1, before.pages), before.pages)
      then LastGood(plan, p, i, k - 1, world, hash)
      else Some(k - 1)
  }

  /** Execute starts at item i with this progress. */
  ghost predicate Begins(plan: Plan, i: nat, initial: Option<RunResult>, start: Pages, p: Progress, hash: Pages -> string)
  {
    && i <= |plan.items| && p == Progress(StartOf(initial, hash(start)), start)
    && Refusal(plan, i, initial, hash(start)).None?
    && (if initial.None? then i == 0 else |initial.value.items| == i)
    && (i == 0 < |plan.items| ==> p.result.treeHash == "")
  }

  /**
   What a run that started at item i may report and so leave in the file while it is running. Behind the
   last item the tree hash is set anew, also when that item failed, before the status changes.
   */
  ghost predicate Reported(plan: Plan, p: Progress, i: nat, r: RunResult, world: World, hash: Pages -> string)
  {
    && i <= |r.items| <= |plan.items|
    && var at := Run(plan, p, i, |r.items|, world, hash);
       var closed := at.result.(treeHash := hash(at.pages));
       if i < |r.items| == |plan.items| then r == closed
       else r == at.result || (|r.items| == |plan.items| && r == closed)
  }

  /** The pages a report of k items is about: those at the end, or those the last item that did not fail left. */
  function RecordedPages(plan: Plan, p: Progress, i: nat, k: nat, world: World, hash: Pages -> string): Pages
    requires i <= k <= |plan.items|
  {
    var last := LastGood(plan, p, i, k, world, hash);
    if k == |plan.items| then Run(plan, p, i, k, world, hash).pages
    else if last.None? then p.pages else Run(plan, p, i, last.value + 1, world, hash).pages
  }

  /** The tree hash after k items is that of the pages as the last item that did not fail left them. */
  lemma {:induction false} RunHash(plan: Plan, p: Progress, i: nat, k: nat, world: World, hash: Pages -> string)
    requires i <= k <= |plan.items|
    ensures
      var last := LastGood(plan, p, i, k, world, hash);
      Run(plan, p, i, k, world, hash).result.treeHash ==
        if last.None? then p.result.treeHash else hash(Run(plan, p, i, last.value + 1, world, hash).pages)
    decreases k
  {
    if k > i { RunHash(plan, p, i, k - 1, world, hash); }
  }

  /**
   The tree hash of a report that follows some item is that of the pages it is about, unless the run began
   at the first item, is not through, and every item so far failed: then there is none.
   */
  lemma RecordedHash(plan: Plan, i: nat, initial: Option<RunResult>, start: Pages, p: Progress, r: RunResult,
                     world: World, hash: Pages -> string)
    requires Begins(plan, i, initial, start, p, hash) && Reported(plan, p, i, r, world, hash) && |r.items| > 0
    ensures
      var k := |r.items|;
      r.treeHash == if k < |plan.items| && i == 0 && LastGood(plan, p, i, k, world, hash).None? then ""
                    else hash(RecordedPages(plan, p, i, k, world, hash))
  {
    RunHash(plan, p, i, |r.items|, world, hash);
  }

  /**
   A run, fresh or resumed, is interrupted with r in the file, and these pages are found afterwards. It is
   resumed exactly if nothing was recorded and the pages fit the plan, or they fit the pages the report is
   about: those at the end when every item is recorded, whatever became of the last one, and those the last
   item that did not fail left otherwise. A fresh run whose items all failed so far is only resumed when
   no item is left.
   */
  lemma ResumedIff(plan: Plan, i: nat, initial: Option<RunResult>, start: Pages, p: Progress, r: RunResult, now: Pages,
                   world: World, hash: Pages -> string)
    requires Begins(plan, i, initial, start, p, hash) && Reported(plan, p, i, r, world, hash)
    requires forall pages :: hash(pages) != ""
    ensures
      var k := |r.items|;
      Refusal(plan, k, Some(r), hash(now)).None? <==>
        if k == 0 then hash(now) == plan.treeHash
        else
          && (k == |plan.items| || i > 0 || LastGood(plan, p, i, k, world, hash).Some?)
          && hash(now) == hash(RecordedPages(plan, p, i, k, world, hash))
  {
    if r.items != [] { RecordedHash(plan, i, initial, start, p, r, world, hash); }
  }

  /** What is true of a fresh run is true of every resume of it: an accepted resume begins again as a run does. */
  lemma ResumeBegins(plan: Plan, i: nat, initial: Option<RunResult>, start: Pages, p: Progress, r: RunResult, now: Pages,
                     world: World, hash: Pages -> string)
    requires Begins(plan, i, initial, start, p, hash) && Reported(plan, p, i, r, world, hash)
    requires Refusal(plan, |r.items|, Some(r), hash(now)).None?
    ensures Begins(plan, |r.items|, Some(r), now, Progress(StartOf(Some(r), hash(now)), now), hash)
  {
    assert |r.items| == 0 ==> Run(plan, p, i, 0, world, hash) == p;
  }

  /**
   A plan of one item that fails and leaves the wiki as it was: the result after the item would be refused,
   but what is in the file is the report behind it, and that is resumed.
   */
  lemma FailedLastItemIsResumed(plan: Plan, start: Pages, world: World, hash: Pages -> string)
    requires |plan.items| == 1 && hash(start) == plan.treeHash != ""
    requires Attempt(plan.items[0], world(0, start), start) == Call(start, Some("failed")) && plan.items[0].action == Create
    ensures
      var p := Progress(StartOf(None, hash(start)), start);
      var after := Run(plan, p, 0, 1, world, hash);
      var r := after.result.(treeHash := hash(after.pages));
      && Begins(plan, 0, None, start, p, hash) && Reported(plan, p, 0, r, world, hash)
      && Refusal(plan, 1, Some(after.result), hash(start)).Some? && Refusal(plan, 1, Some(r), hash(start)).None?
  {
    var p := Progress(StartOf(None, hash(start)), start);
    assert Run(plan, p, 0, 1, world, hash) == Step(Run(plan, p, 0, 0, world, hash), plan.items[0], world(0, start), hash);
  }

  /** Runs compose: stopping at j and going on from what was reached changes nothing. */
  lemma {:induction false} RunsCompose(plan: Plan, p: Progress, i: nat, j: nat, k: nat, world: World, hash: Pages -> string)
    requires i <= j <= k <= |plan.items|
    ensures Run(plan, p, i, k, world, hash) == Run(plan, Run(plan, p, i, j, world, hash), j, k, world, hash)
    decreases k
  {
    if j < k { RunsCompose(plan, p, i, j, k - 1, world, hash); }
  }

  lemma {:induction false} BeforeIsKept(plan: Plan, p: Progress, i: nat, k: nat, world: World, hash: Pages -> string)
    requires i <= k <= |plan.items|
    ensures Run(plan, p, i, k, world, hash).result.treeHashBefore == p.result.treeHashBefore
    decreases k
  {
    if i < k { BeforeIsKept(plan, p, i, k - 1, world, hash); }
  }

  /** A finished run as Execute returns it. */
  function Closed(p: Progress, hash: Pages -> string): Progress
  {
    p.(result := p.result.(treeHash := hash(p.pages)))
  }

  /**
   No item is imported twice. When the items recorded behind the last good one left the wiki as it was and
   hashes tell pages apart, a resume that is accepted ends with the very result and pages of the run that was
   never interrupted, whatever the interrupted item had already done to the pages it was stopped in.
   */
  lemma ResumeIsSeamless(plan: Plan, i: nat, initial: Option<RunResult>, start: Pages, p: Progress, r: RunResult, now: Pages,
                         world: World, hash: Pages -> string)
    requires Begins(plan, i, initial, start, p, hash) && Reported(plan, p, i, r, world, hash)
    requires (forall a, b :: hash(a) == hash(b) ==> a == b) && forall pages :: hash(pages) != ""
    requires Refusal(plan, |r.items|, Some(r), hash(now)).None?
    requires Run(plan, p, i, |r.items|, world, hash).pages == RecordedPages(plan, p, i, |r.items|, world, hash)
    ensures
      Closed(Run(plan, Progress(StartOf(Some(r), hash(now)), now), |r.items|, |plan.items|, world, hash), hash) ==
      Closed(Run(plan, p, i, |plan.items|, world, hash), hash)
  {
    var k := |r.items|;
    ResumedIff(plan, i, initial, start, p, r, now, world, hash);
    BeforeIsKept(plan, p, i, k, world, hash);
    RunsCompose(plan, p, i, k, |plan.items|, world, hash);
    assert now == Run(plan, p, i, k, world, hash).pages;
  }
}

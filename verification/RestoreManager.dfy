/**
 The restore run of internal/restore/manager.go: validate, engage the write gate, pause the stores,
 swap, reopen, reload, commit - or roll back.

 Every step that runs foreign code has an outcome: it succeeds, fails, or panics. The outcomes are an
 arbitrary function of the step, so a contract here speaks about every combination, also of wrong answers
 of os.Stat in the swapper. A panic unwinds to runGuarded, which is why the methods below report it to
 their caller.
 */
module RestoreManager {
  import opened Common
  import opened Swap
  import opened RestoreJob

  datatype Outcome = Succeeds | Fails | Panics

  /** The steps that can go wrong, outside the swapper. Store 0 is the user store when auth is enabled. */
  datatype Step =
    | Validate | Drain
    | Pause(store: nat) | RecoverReplace(store: nat) | RecoverResolver
    | StatStaged(item: nat) | CleanWal(item: nat)
    | Replace(store: nat) | InvalidateSessions | ReloadResolver
    | Reload(cache: nat)
    | Resync
    | PauseForRollback(store: nat) | ReopenAfterRollback(store: nat) | ResolverAfterRollback

  type Outcomes = Step -> Outcome

  /** How the steps before the swap ended: on to the swap, job finished, or a panic on its way up. */
  datatype Prepared = Go | JobFinished | Unwound

  /** A store on item `file`, with the content of the file it has open. */
  datatype Store = Store(file: nat, suspended: bool, handle: Option<Content>)

  /** A settings service that caches item `file`. */
  datatype Cache = Cache(file: nat, content: Option<Content>)

  /** What the swapper's calls run into. */
  datatype Faults = Faults(swap: seq<SwapFaults>, roll: seq<RollFaults>, commitFails: seq<bool>)

  /**
   The disk as the stores see it: opening a database that is not there creates an empty one, so a missing
   file of a store is as good as an empty database.
   */
  datatype View = View(files: seq<nat>, emptyDb: Content)
  {
    function At(i: nat, live: Option<Content>): Option<Content>
    {
      if live.None? && i in files then Some(emptyDb) else live
    }
  }

  // ----- what a run may leave on disk -----

  ghost predicate AllOriginal(items: seq<Item>, view: View, original: seq<Option<Content>>)
  {
    |items| == |original| && forall i :: 0 <= i < |items| ==> view.At(i, items[i].live) == view.At(i, original[i])
  }

  ghost predicate AllRestored(items: seq<Item>, view: View, original: seq<Option<Content>>, captured: seq<Option<Content>>)
  {
    && |items| == |original| == |captured|
    && forall i :: 0 <= i < |items| ==>
         view.At(i, items[i].live) == if captured[i].Some? then captured[i] else view.At(i, original[i])
  }

  /** Every original that exists is safe. */
  ghost predicate AllSafe(items: seq<Item>, original: seq<Option<Content>>)
  {
    |items| == |original| && forall i :: 0 <= i < |items| && original[i].Some? ==> Safe(items[i], original[i])
  }

  /** No copy of an item that was put in place is left, unless its removal failed. */
  ghost predicate CopiesGone(items: seq<Item>, captured: seq<Option<Content>>, f: Faults)
  {
    && |items| == |captured| == |f.swap| == |f.commitFails|
    && forall i :: 0 <= i < |items| && captured[i].Some? && !f.swap[i].stagedStatErrs && !f.commitFails[i] ==> items[i].pre.None?
  }

  /** Every item that is to be put in place is marked as swapped. */
  ghost predicate AllSwapped(items: seq<Item>, captured: seq<Option<Content>>, f: seq<SwapFaults>)
  {
    && |items| == |captured| == |f|
    && forall i :: 0 <= i < |items| && captured[i].Some? && !f[i].stagedStatErrs ==> items[i].swapped
  }

  lemma SwapMarks(before: seq<Item>, after: seq<Item>, f: seq<SwapFaults>, n: nat, original: seq<Option<Content>>, captured: seq<Option<Content>>)
    requires |f| == |before| && AllFresh(before, original, captured) && SwappedUpTo(before, after, f, n) && n == |before|
    requires forall i :: 0 <= i < |f| ==> !SwapFails(before[i], f[i])
    ensures AllSwapped(after, captured, f)
  {
    forall i | 0 <= i < |after| && captured[i].Some? && !f[i].stagedStatErrs
      ensures after[i].swapped
    {
      SwapFailsIff(before[i], f[i]);
    }
  }

  /** Every item as a swap that went through leaves it at its live path. */
  ghost predicate AllLanded(items: seq<Item>, view: View, original: seq<Option<Content>>, captured: seq<Option<Content>>, f: seq<SwapFaults>)
  {
    && |items| == |original| == |captured| == |f|
    && forall i :: 0 <= i < |items| ==> view.At(i, items[i].live) == view.At(i, Landed(original[i], captured[i], f[i]))
  }

  /** A captured item whose content differs from the original, and that the staged stat missed. */
  predicate Skipped(o: Option<Content>, c: Option<Content>, f: SwapFaults)
  {
    c.Some? && c != o && f.stagedStatErrs
  }

  /** A captured item whose content differs from the original, and that was put in place. */
  predicate Changed(o: Option<Content>, c: Option<Content>, f: SwapFaults)
  {
    c.Some? && c != o && !f.stagedStatErrs
  }

  ghost predicate NoneSkipped(view: View, original: seq<Option<Content>>, captured: seq<Option<Content>>, f: seq<SwapFaults>)
    requires |original| == |captured| == |f|
  {
    forall i :: 0 <= i < |f| ==> !Skipped(view.At(i, original[i]), captured[i], f[i])
  }

  ghost predicate NoneChanged(view: View, original: seq<Option<Content>>, captured: seq<Option<Content>>, f: seq<SwapFaults>)
    requires |original| == |captured| == |f|
  {
    forall i :: 0 <= i < |f| ==> !Changed(view.At(i, original[i]), captured[i], f[i])
  }

  /**
   A swap that went through has restored everything exactly when no captured item that differs from its
   original was skipped, and it has left no mixture exactly when that holds or every such item was.
   */
  lemma LandedIff(items: seq<Item>, view: View, original: seq<Option<Content>>, captured: seq<Option<Content>>, f: seq<SwapFaults>)
    requires AllLanded(items, view, original, captured, f)
    ensures AllRestored(items, view, original, captured) <==> NoneSkipped(view, original, captured, f)
    ensures AllOriginal(items, view, original) <==> NoneChanged(view, original, captured, f)
  {
    forall i | 0 <= i < |f|
      ensures !Skipped(view.At(i, original[i]), captured[i], f[i]) <==>
                view.At(i, items[i].live) == if captured[i].Some? then captured[i] else view.At(i, original[i])
      ensures !Changed(view.At(i, original[i]), captured[i], f[i]) <==> view.At(i, items[i].live) == view.At(i, original[i])
    {
      assert view.At(i, items[i].live) == view.At(i, Landed(original[i], captured[i], f[i]));
    }
  }

  /** One missed staged path is enough: of two captured items the swap restores one, and reports success. */
  lemma OneSkippedIsAMixture(o: seq<Option<Content>>, c: seq<Option<Content>>, after: seq<Item>, view: View)
    requires |o| == |c| == 2 && c[0].Some? && c[1].Some? && c[0] != view.At(0, o[0]) && c[1] != view.At(1, o[1])
    requires
      var f := [SwapFaults(true, false, false, false), SwapFaults(false, false, false, false)];
      SwappedUpTo([Fresh(o[0], c[0]), Fresh(o[1], c[1])], after, f, 2)
    ensures
      var f := [SwapFaults(true, false, false, false), SwapFaults(false, false, false, false)];
      && !SwapFails(Fresh(o[0], c[0]), f[0]) && !SwapFails(Fresh(o[1], c[1]), f[1])
      && !AllOriginal(after, view, o) && !AllRestored(after, view, o, c)
  {
    assert after[0].live == o[0];
    assert after[1].live == c[1];
  }

  /** Item i was reached by the swap, and a wrong stat on the way has cost the original. */
  ghost predicate LostAt(original: seq<Option<Content>>, captured: seq<Option<Content>>, f: Faults, reached: nat, i: nat)
    requires |original| == |captured| == |f.swap| == |f.roll|
  {
    i < reached && i < |original| && Lost(original[i], captured[i], f.swap[i], f.roll[i])
  }

  ghost predicate NothingLost(original: seq<Option<Content>>, captured: seq<Option<Content>>, f: Faults, reached: nat)
    requires |original| == |captured| == |f.swap| == |f.roll|
  {
    forall i: nat :: i < |original| ==> !LostAt(original, captured, f, reached, i)
  }

  /** What a rollback without errors brings back of item i: the original, or nothing where it was lost. */
  ghost function Back(original: seq<Option<Content>>, captured: seq<Option<Content>>, f: Faults, reached: nat, i: nat): Option<Content>
    requires |original| == |captured| == |f.swap| == |f.roll| && i < |original|
  {
    if LostAt(original, captured, f, reached, i) then None else original[i]
  }

  /** Every item after a rollback without errors. */
  ghost predicate AllBack(items: seq<Item>, view: View, original: seq<Option<Content>>, captured: seq<Option<Content>>,
                          f: Faults, reached: nat)
    requires |original| == |captured| == |f.swap| == |f.roll|
  {
    && |items| == |original|
    && forall i: nat :: i < |items| ==> view.At(i, items[i].live) == view.At(i, Back(original, captured, f, reached, i))
  }

  /** It is the original everywhere exactly when nothing was lost, an empty database that was one before excepted. */
  lemma BackIsOriginalIff(items: seq<Item>, view: View, original: seq<Option<Content>>, captured: seq<Option<Content>>,
                          f: Faults, reached: nat)
    requires |original| == |captured| == |f.swap| == |f.roll|
    requires AllBack(items, view, original, captured, f, reached)
    ensures AllOriginal(items, view, original) <==>
              forall i: nat :: i < |items| && LostAt(original, captured, f, reached, i) ==>
                i in view.files && original[i] == Some(view.emptyDb)
    ensures NothingLost(original, captured, f, reached) ==> AllOriginal(items, view, original)
  {
    if AllOriginal(items, view, original) {
      forall i: nat | i < |items| && LostAt(original, captured, f, reached, i)
        ensures i in view.files && original[i] == Some(view.emptyDb)
      {
        assert view.At(i, items[i].live) == view.At(i, original[i]);
        assert original[i].Some?;
      }
    }
  }

  /** The caches after a run in which exactly the `reloaded` ones took a file of the swapped data directory. */
  ghost predicate CachesAfter(before: seq<Cache>, after: seq<Cache>, reloaded: set<nat>, view: View,
                              original: seq<Option<Content>>, captured: seq<Option<Content>>, f: seq<SwapFaults>)
  {
    && |before| == |after| && |original| == |captured| == |f|
    && forall c :: 0 <= c < |after| ==>
         && after[c].file == before[c].file < |original|
         && after[c].content == if c !in reloaded then before[c].content
                                else view.At(after[c].file, Landed(original[after[c].file], captured[after[c].file], f[after[c].file]))
  }

  /** A store serves requests from the file that is on disk now. */
  ghost predicate Serving(s: Store, items: seq<Item>)
  {
    s.file < |items| && !s.suspended && s.handle.Some? && s.handle == items[s.file].live
  }

  ghost predicate AllServing(stores: seq<Store>, items: seq<Item>)
  {
    forall s :: 0 <= s < |stores| ==> Serving(stores[s], items)
  }

  /** The store has let go of its file. */
  predicate Released(s: Store)
  {
    s.suspended && s.handle.None?
  }

  ghost predicate AllReleased(stores: seq<Store>)
  {
    forall s :: 0 <= s < |stores| ==> Released(stores[s])
  }

  /** The items before the run. */
  ghost predicate AllFresh(items: seq<Item>, original: seq<Option<Content>>, captured: seq<Option<Content>>)
  {
    |items| == |original| == |captured| && forall i :: 0 <= i < |items| ==> items[i] == Fresh(original[i], captured[i])
  }

  /** Item i after SwapAll came as far as `reached`. */
  function SwappedItem(o: Option<Content>, c: Option<Content>, f: SwapFaults, done: bool): Item
  {
    if done then SwapOne(Fresh(o, c), f) else Fresh(o, c)
  }

  /** The item as the swap left it, or, untouched and missing, with an empty database created in its place. */
  predicate SameOrCreated(it: Item, swapped: Item, view: View, i: nat)
  {
    it == swapped || (swapped.live.None? && !swapped.movedAside && i in view.files && it == swapped.(live := Some(view.emptyDb)))
  }

  ghost predicate SwappedTo(items: seq<Item>, view: View, original: seq<Option<Content>>, captured: seq<Option<Content>>,
                            f: seq<SwapFaults>, reached: nat)
  {
    && |items| == |original| == |captured| == |f| && reached <= |items|
    && forall i :: 0 <= i < |items| ==> SameOrCreated(items[i], SwappedItem(original[i], captured[i], f[i], i < reached), view, i)
  }

  lemma SwapReaches(before: seq<Item>, after: seq<Item>, view: View, f: seq<SwapFaults>, n: nat,
                    original: seq<Option<Content>>, captured: seq<Option<Content>>)
    requires |f| == |before| && AllFresh(before, original, captured) && SwappedUpTo(before, after, f, n)
    ensures SwappedTo(after, view, original, captured, f, n)
    ensures n == |before| && (forall i :: 0 <= i < |f| ==> !SwapFails(before[i], f[i])) ==>
              AllLanded(after, view, original, captured, f) && forall i :: 0 <= i < |after| && after[i].movedAside ==> after[i].live.Some?
  {
    if n == |before| && forall i :: 0 <= i < |f| ==> !SwapFails(before[i], f[i]) {
      forall i | 0 <= i < |after|
        ensures after[i].live == Landed(original[i], captured[i], f[i])
      {
        SwappedLive(original[i], captured[i], f[i]);
      }
    }
  }

  /** As long as no stat missed, a swap, however far it came, keeps every original safe. */
  lemma SwappedIsSafe(items: seq<Item>, view: View, original: seq<Option<Content>>, captured: seq<Option<Content>>, f: Faults, reached: nat)
    requires |original| == |captured| == |f.swap| == |f.roll| && SwappedTo(items, view, original, captured, f.swap, reached)
    requires NothingLost(original, captured, f, reached)
    ensures AllSafe(items, original)
    ensures forall i :: 0 <= i < |items| && original[i].Some? ==> !MissedCopy(items[i], f.roll[i])
  {
    forall i | 0 <= i < |items| && original[i].Some?
      ensures Safe(items[i], original[i]) && !MissedCopy(items[i], f.roll[i])
    {
      assert !LostAt(original, captured, f, reached, i);
      SwapKeepsSafeIff(Fresh(original[i], captured[i]), f.swap[i]);
    }
  }

  lemma RollbackKeepsAllSafe(before: seq<Item>, after: seq<Item>, f: seq<RollFaults>, original: seq<Option<Content>>)
    requires |f| == |before| == |after| && AllSafe(before, original)
    requires forall i :: 0 <= i < |f| && original[i].Some? ==> !MissedCopy(before[i], f[i])
    requires forall i :: 0 <= i < |before| ==> after[i] == RollOne(before[i], f[i])
    ensures AllSafe(after, original)
  {
    forall i | 0 <= i < |after| && original[i].Some?
      ensures Safe(after[i], original[i])
    {
      RollKeepsSafeIff(before[i], original[i], f[i]);
    }
  }

  /** A rollback without errors. */
  lemma RollbackBringsBack(before: seq<Item>, after: seq<Item>, view: View, original: seq<Option<Content>>,
                           captured: seq<Option<Content>>, f: Faults, reached: nat)
    requires |original| == |captured| == |f.swap| == |f.roll| == |after| && SwappedTo(before, view, original, captured, f.swap, reached)
    requires forall i :: 0 <= i < |before| ==> after[i] == RollOne(before[i], f.roll[i]) && !RollFails(before[i], f.roll[i])
    ensures AllBack(after, view, original, captured, f, reached)
  {
    forall i: nat | i < |after|
      ensures view.At(i, after[i].live) == view.At(i, Back(original, captured, f, reached, i))
    {
      assert SameOrCreated(before[i], SwappedItem(original[i], captured[i], f.swap[i], i < reached), view, i);
      if i < reached && before[i] == SwappedItem(original[i], captured[i], f.swap[i], true) {
        RolledBackLive(original[i], captured[i], f.swap[i], f.roll[i]);
      }
    }
  }

  /** The calls that fail the rollback of a swap that came as far as `reached`, and only those, make it fail. */
  lemma RollbackFailsIff(before: seq<Item>, view: View, original: seq<Option<Content>>, captured: seq<Option<Content>>,
                         f: Faults, reached: nat)
    requires |original| == |captured| == |f.swap| == |f.roll| && SwappedTo(before, view, original, captured, f.swap, reached)
    ensures (exists i :: 0 <= i < |before| && RollFails(before[i], f.roll[i])) <==> UndoneFails(original, captured, f, reached)
  {
    forall i: nat | i < |before|
      ensures RollFails(before[i], f.roll[i]) <==> i < reached && UndoFails(original[i], captured[i], f.swap[i], f.roll[i])
    {
      assert SameOrCreated(before[i], SwappedItem(original[i], captured[i], f.swap[i], i < reached), view, i);
      UndoFailsIff(original[i], captured[i], f.swap[i], f.roll[i]);
    }
  }

  ghost predicate UndoneFails(original: seq<Option<Content>>, captured: seq<Option<Content>>, f: Faults, reached: nat)
    requires |original| == |captured| == |f.swap| == |f.roll|
  {
    exists i: nat :: i < reached && i < |original| && UndoFails(original[i], captured[i], f.swap[i], f.roll[i])
  }

  class Manager {
    const hasAuth: bool
    const hasResolver: bool
    /** The swapper of the current run; its live paths are the data directory. */
    const sw: Swapper
    /** The database file of each store, and what SQLite creates when one is not there. */
    const view: View
    /** The database files that may have stale WAL sidecars. */
    const walFiles: seq<nat>
    var gateEngaged: bool
    var job: Job
    var stores: seq<Store>
    var caches: seq<Cache>

    /** A manager over a data directory with the given items, stores and settings caches. */
    constructor (sw: Swapper, view: View, walFiles: seq<nat>, hasAuth: bool, hasResolver: bool, stores: seq<Store>, caches: seq<Cache>)
      requires hasAuth ==> stores != []
      requires |stores| == |view.files| && forall s :: 0 <= s < |stores| ==> stores[s].file == view.files[s] < |sw.items|
      requires forall c :: 0 <= c < |caches| ==> caches[c].file < |sw.items|
      requires forall i :: i in walFiles ==> i < |sw.items|
      ensures Valid() && !gateEngaged && !job.running && !job.done
      ensures this.sw == sw && this.view == view && this.walFiles == walFiles && this.stores == stores && this.caches == caches
    {
      this.sw, this.view, this.walFiles, this.hasAuth, this.hasResolver := sw, view, walFiles, hasAuth, hasResolver;
      this.stores, this.caches := stores, caches;
      gateEngaged, job := false, Job(false, false, false, false);
    }

    ghost predicate Valid()
      reads this, sw
    {
      && (hasAuth ==> stores != [])
      && |stores| == |view.files| && (forall s :: 0 <= s < |stores| ==> stores[s].file == view.files[s] < |sw.items|)
      && (forall c :: 0 <= c < |caches| ==> caches[c].file < |sw.items|)
      && (forall i :: i in walFiles ==> i < |sw.items|)
    }

    // ----- a new run -----

    /** Start, and newSwapper over what is on disk now; set-aside copies of an earlier run have other names. */
    method Begin(captured: seq<Option<Content>>) returns (started: bool)
      requires Valid() && |captured| == |sw.items|
      modifies this`job, sw
      ensures Valid() && started == !old(job.running) && job == Begun(old(job))
      ensures started ==> |sw.items| == |old(sw.items)| && forall i :: 0 <= i < |sw.items| ==> sw.items[i] == Fresh(old(sw.items)[i].live, captured[i])
      ensures !started ==> sw.items == old(sw.items)
    {
      started := !job.running;
      if started {
        job := Begun(job);
        sw.items := seq(|captured|, i requires 0 <= i < |captured| && |captured| == |sw.items| reads sw => Fresh(sw.items[i].live, captured[i]));
      }
    }

    // ----- one store -----

    /** Every store but s is as it was. */
    twostate predicate OnlyStore(s: nat)
      reads this
    {
      |stores| == |old(stores)| && forall u :: 0 <= u < |stores| && u != s ==> stores[u] == old(stores)[u]
    }

    /** PauseForSwap marks the store suspended and drops its handle even when closing it fails. */
    method PauseStore(s: nat)
      requires s < |stores|
      modifies this`stores
      ensures OnlyStore(s) && stores[s].file == old(stores)[s].file && Released(stores[s])
    {
      stores := stores[s := Store(stores[s].file, true, None)];
    }

    /** Replace opens whatever is on disk now; SQLite creates a database that is missing. */
    method ReopenStore(s: nat)
      requires Valid() && s < |stores|
      modifies this`stores, sw
      ensures Valid() && OnlyStore(s) && Serving(stores[s], sw.items) && OnlyCreated(old(sw.items))
      ensures forall i :: 0 <= i < |sw.items| && old(sw.items)[i].live.Some? ==> sw.items[i] == old(sw.items)[i]
    {
      var i := stores[s].file;
      if sw.items[i].live.None? {
        sw.items := sw.items[i := sw.items[i].(live := Some(view.emptyDb))];
      }
      stores := stores[s := Store(i, false, sw.items[i].live)];
    }

    /** Nothing has happened on disk but that missing databases were created. */
    ghost predicate OnlyCreated(before: seq<Item>)
      reads sw
    {
      && |before| == |sw.items|
      && forall i :: 0 <= i < |before| ==>
           || sw.items[i] == before[i]
           || (before[i].live.None? && i in view.files && sw.items[i] == before[i].(live := Some(view.emptyDb)))
    }

    /** For the stores the disk is as it was. */
    lemma CreatedIsSame(before: seq<Item>)
      requires OnlyCreated(before)
      ensures forall i :: 0 <= i < |before| ==> view.At(i, sw.items[i].live) == view.At(i, before[i].live)
      ensures forall original :: AllSafe(before, original) ==> AllSafe(sw.items, original)
    {
    }

    /** Once every store serves, no database is missing. */
    lemma ServedIsThere()
      requires Valid() && AllServing(stores, sw.items)
      ensures forall i :: 0 <= i < |sw.items| ==> view.At(i, sw.items[i].live) == sw.items[i].live
    {
      forall i | 0 <= i < |sw.items| && i in view.files
        ensures sw.items[i].live.Some?
      {
        var s :| 0 <= s < |stores| && view.files[s] == i;
        assert Serving(stores[s], sw.items);
      }
    }

    // ----- when nothing goes wrong -----

    /** The steps before the swap go through; a time-out of the drain does not count. */
    ghost predicate PreparesWell(o: Outcomes)
      reads this, sw
    {
      && o(Validate).Succeeds? && !o(Drain).Panics?
      && (forall s: nat :: s < |stores| ==> o(Pause(s)).Succeeds?)
      && CleansWell(o)
    }

    /** Every staged database file that the stat finds gets rid of its sidecars. */
    ghost predicate CleansWell(o: Outcomes)
      reads sw
    {
      forall i :: i in walFiles && NeedsClean(o, i) ==> o(CleanWal(i)).Succeeds?
    }

    /** No step before the swap panics. */
    ghost predicate PreparesCalmly(o: Outcomes)
      reads this
    {
      && !o(Validate).Panics? && !o(Drain).Panics?
      && (forall s: nat :: s < |stores| ==> !o(Pause(s)).Panics?)
      && (forall i :: i in walFiles ==> !o(CleanWal(i)).Panics?)
    }

    /** All stores reopen on the restored files; failing session and label clean-ups do not count. */
    ghost predicate ReplacesWell(o: Outcomes)
      reads this
    {
      && (forall s: nat :: s < |stores| ==> o(Replace(s)).Succeeds?)
      && (hasAuth ==> !o(InvalidateSessions).Panics? && (hasResolver ==> !o(ReloadResolver).Panics?))
    }

    /** The steps from a completed swap on go through. */
    ghost predicate CompletesWell(o: Outcomes)
      reads this
    {
      ReplacesWell(o) && (forall c: nat :: c < |caches| ==> o(Reload(c)).Succeeds?) && !o(Resync).Panics?
    }

    /** The whole run goes through. */
    ghost predicate GoesWell(o: Outcomes, f: Faults)
      requires |f.swap| == |sw.items|
      reads this, sw
    {
      PreparesWell(o) && CompletesWell(o) && !SwapStops(f)
    }

    /** Every store reopens, after a rollback or in place of one. */
    ghost predicate ReopensWell(o: Outcomes, afterRollback: bool)
      reads this
    {
      && (forall s: nat :: s < |stores| ==> o(if afterRollback then ReopenAfterRollback(s) else RecoverReplace(s)).Succeeds?)
      && (hasAuth && hasResolver ==> !o(if afterRollback then ResolverAfterRollback else RecoverResolver).Panics?)
    }

    /** The shared failure path goes through; a store that cannot be paused does not count. */
    ghost predicate RollsBackWell(o: Outcomes, f: Faults, original: seq<Option<Content>>, captured: seq<Option<Content>>, reached: nat)
      requires |original| == |captured| == |f.swap| == |f.roll|
      reads this
    {
      && (forall s: nat :: s < |stores| ==> !o(PauseForRollback(s)).Panics?)
      && !UndoneFails(original, captured, f, reached)
      && ReopensWell(o, true)
    }

    // ----- when a step fails without a panic -----

    /** Some store cannot be paused, and no one before it panics. */
    ghost predicate PauseStops(o: Outcomes)
      reads this
    {
      exists s: nat :: s < |stores| && o(Pause(s)).Fails? && forall u: nat :: u < s ==> o(Pause(u)).Succeeds?
    }

    ghost predicate NeedsClean(o: Outcomes, i: nat)
      reads sw
    {
      i < |sw.items| && sw.items[i].staged.Some? && o(StatStaged(i)).Succeeds?
    }

    /** Some staged database cannot be cleaned, and no one before it panics. */
    ghost predicate CleanStops(o: Outcomes)
      reads this, sw
    {
      exists k: nat :: k < |walFiles| && NeedsClean(o, walFiles[k]) && o(CleanWal(walFiles[k])).Fails? &&
        forall j: nat :: j < k && NeedsClean(o, walFiles[j]) ==> o(CleanWal(walFiles[j])).Succeeds?
    }

    /** The run gets past validation and a step before the swap fails. */
    ghost predicate PrepareStops(o: Outcomes)
      reads this, sw
    {
      && o(Validate).Succeeds? && !o(Drain).Panics?
      && (PauseStops(o) || ((forall s: nat :: s < |stores| ==> o(Pause(s)).Succeeds?) && CleanStops(o)))
    }

    /** Some store does not open on the restored files, and nothing before it panics. */
    ghost predicate ReplaceStops(o: Outcomes)
      reads this
    {
      exists s: nat :: s < |stores| && o(Replace(s)).Fails? && (forall u: nat :: u < s ==> o(Replace(u)).Succeeds?) &&
        (s > 0 && hasAuth ==> !o(InvalidateSessions).Panics? && (hasResolver ==> !o(ReloadResolver).Panics?))
    }

    /** Every settings cache is tried, and one of them does not reload. */
    ghost predicate ReloadStops(o: Outcomes)
      reads this
    {
      && (forall c: nat :: c < |caches| ==> !o(Reload(c)).Panics?)
      && exists c: nat :: c < |caches| && o(Reload(c)).Fails?
    }

    /** A step between a completed swap and the commit fails. */
    ghost predicate CompleteStops(o: Outcomes)
      reads this
    {
      ReplaceStops(o) || (ReplacesWell(o) && ReloadStops(o))
    }

    /**
     The run ends as an ordinary error: validation fails; or a step before the swap does, and the stores
     reopen; or the swap or a later step does, and it is undone.
     */
    ghost predicate EndsOrdinarily(o: Outcomes, f: Faults, original: seq<Option<Content>>, captured: seq<Option<Content>>, reached: nat)
      requires |original| == |captured| == |f.swap| == |f.roll| == |sw.items|
      reads this, sw
    {
      || o(Validate).Fails?
      || (PrepareStops(o) && ReopensWell(o, false))
      || (PreparesWell(o) && (CompleteStops(o) || SwapStops(f)) && RollsBackWell(o, f, original, captured, reached))
    }

    ghost predicate SwapStops(f: Faults)
      requires |f.swap| == |sw.items|
      reads this, sw
    {
      exists i :: 0 <= i < |sw.items| && SwapFails(sw.items[i], f.swap[i])
    }

    /** SwapAll and RollbackAll rename files, so no store may hold one open. */
    method SwapFiles(f: seq<SwapFaults>) returns (ok: bool, ghost n: nat)
      requires |f| == |sw.items| && AllReleased(stores)
      modifies sw
      ensures SwappedUpTo(old(sw.items), sw.items, f, n)
      ensures ok <==> forall i :: 0 <= i < |f| ==> !SwapFails(old(sw.items)[i], f[i])
      ensures FirstFailure(old(sw.items), f, n)
    {
      ok, n := sw.SwapAll(f);
    }

    method RollBackFiles(f: Faults, ghost original: seq<Option<Content>>, ghost captured: seq<Option<Content>>, ghost reached: nat)
        returns (ok: bool)
      requires |original| == |captured| == |f.swap| == |f.roll| == |sw.items| && AllReleased(stores)
      requires SwappedTo(sw.items, view, original, captured, f.swap, reached)
      modifies sw
      ensures |sw.items| == |old(sw.items)|
      ensures forall i :: 0 <= i < |sw.items| ==> sw.items[i] == RollOne(old(sw.items)[i], f.roll[i])
      ensures ok <==> forall i :: 0 <= i < |sw.items| ==> !RollFails(old(sw.items)[i], f.roll[i])
      ensures NothingLost(original, captured, f, reached) ==> AllSafe(sw.items, original)
      ensures ok ==> AllBack(sw.items, view, original, captured, f, reached)
      ensures ok <==> !UndoneFails(original, captured, f, reached)
    {
      ghost var before := sw.items;
      ok := sw.RollbackAll(f.roll);
      RollbackFailsIff(before, view, original, captured, f, reached);
      if NothingLost(original, captured, f, reached) {
        SwappedIsSafe(before, view, original, captured, f, reached);
        RollbackKeepsAllSafe(before, sw.items, f.roll, original);
      }
      if ok {
        RollbackBringsBack(before, sw.items, view, original, captured, f, reached);
      }
    }

    /** reopenAllStores: tries every store and reports whether any of them failed. */
    method ReopenAllStores(o: Outcomes, afterRollback: bool) returns (panicked: bool, ok: bool)
      requires Valid()
      modifies this`stores, sw
      ensures Valid() && OnlyCreated(old(sw.items))
      ensures !panicked && ok ==> AllServing(stores, sw.items)
      ensures !panicked ==>
                (ok <==> forall s: nat :: s < |stores| ==> o(if afterRollback then ReopenAfterRollback(s) else RecoverReplace(s)).Succeeds?)
      ensures !panicked && ok <==> old(ReopensWell(o, afterRollback))
    {
      ok := true;
      for s := 0 to |stores|
        invariant Valid() && OnlyCreated(old(sw.items))
        invariant ok <==> forall u: nat :: u < s ==> o(if afterRollback then ReopenAfterRollback(u) else RecoverReplace(u)).Succeeds?
        invariant ok && s > 0 && hasAuth && hasResolver ==> !o(if afterRollback then ResolverAfterRollback else RecoverResolver).Panics?
        invariant ok ==> forall u :: 0 <= u < s ==> Serving(stores[u], sw.items)
      {
        match o(if afterRollback then ReopenAfterRollback(s) else RecoverReplace(s)) {
          case Panics => return true, false;
          case Fails => ok := false;
          case Succeeds =>
            NextReopened(s, old(sw.items));
            if s == 0 && hasAuth && hasResolver &&
               o(if afterRollback then ResolverAfterRollback else RecoverResolver).Panics? {
              return true, false;
            }
        }
      }
      panicked := false;
    }

    /** ReopenStore beside stores that are open already. */
    method NextReopened(s: nat, ghost before: seq<Item>)
      requires Valid() && s < |stores| && OnlyCreated(before)
      modifies this`stores, sw
      ensures Valid() && OnlyCreated(before) && Serving(stores[s], sw.items)
      ensures forall u :: 0 <= u < |stores| && u != s && Serving(old(stores)[u], old(sw.items)) ==> Serving(stores[u], sw.items)
    {
      ReopenStore(s);
    }

    // ----- the failure paths -----

    /** A pause or clean-up failure: nothing on disk has changed, so only the stores need recovering. */
    method RecoverStores(o: Outcomes) returns (panicked: bool)
      requires Valid() && !job.needsIntervention
      modifies this, sw
      ensures Valid() && caches == old(caches) && !gateEngaged && OnlyCreated(old(sw.items))
      ensures panicked ==> job == old(job)
      ensures !panicked ==> job == Job(false, true, true, job.needsIntervention)
      ensures !panicked && !job.needsIntervention ==> AllServing(stores, sw.items)
      ensures !panicked && !job.needsIntervention <==> old(ReopensWell(o, false))
    {
      gateEngaged := false;
      var ok;
      panicked, ok := ReopenAllStores(o, false);
      if panicked {
        return;
      }
      job := Job(false, true, true, !ok);
    }

    /** The pauses before a rollback; a failing one does not count. */
    method PauseForRollBack(o: Outcomes) returns (panicked: bool)
      requires Valid()
      modifies this`stores
      ensures Valid()
      ensures panicked <==> exists s: nat :: s < |stores| && o(PauseForRollback(s)).Panics?
      ensures !panicked ==> AllReleased(stores)
    {
      for s := 0 to |stores|
        invariant Valid()
        invariant forall u: nat :: u < s ==> Released(stores[u]) && !o(PauseForRollback(u)).Panics?
      {
        if o(PauseForRollback(s)).Panics? {
          return true;
        }
        PauseStore(s);
      }
      panicked := false;
    }

    /** The swapper and the stores as the failure path finds them, whatever stats were wrong before. */
    ghost predicate InFailure(f: Faults, original: seq<Option<Content>>, captured: seq<Option<Content>>, reached: nat)
      reads this, sw
    {
      && Valid() && gateEngaged && !job.needsIntervention
      && |original| == |captured| == |f.swap| == |f.roll| == |sw.items|
      && SwappedTo(sw.items, view, original, captured, f.swap, reached)
    }

    /**
     rollbackOrIntervene: the shared failure path from SwapAll on. Where no stat missed anything, every
     original stays safe, whatever happens; when it reports an ordinary error every item is the original
     again but for what such misses have cost.
     */
    method RollbackOrIntervene(o: Outcomes, f: Faults, ghost original: seq<Option<Content>>, ghost captured: seq<Option<Content>>,
                               ghost reached: nat) returns (panicked: bool)
      requires |f.roll| == |sw.items| && InFailure(f, original, captured, reached)
      modifies this, sw
      ensures Valid() && caches == old(caches) && |sw.items| == |old(sw.items)|
      ensures panicked ==> job == old(job) && gateEngaged
      ensures !panicked ==> job == Job(false, true, true, job.needsIntervention)
      ensures !panicked && job.needsIntervention ==> gateEngaged
      ensures !panicked && !job.needsIntervention ==>
                !gateEngaged && AllServing(stores, sw.items) &&
                AllBack(sw.items, view, original, captured, f, reached)
      ensures NothingLost(original, captured, f, reached) ==> AllSafe(sw.items, original)
      ensures !panicked && !job.needsIntervention <==> old(RollsBackWell(o, f, original, captured, reached))
    {
      if NothingLost(original, captured, f, reached) {
        SwappedIsSafe(sw.items, view, original, captured, f, reached);
      }
      panicked := PauseForRollBack(o);
      if panicked {
        return;
      }
      var rolledBack := RollBackFiles(f, original, captured, reached);
      if !rolledBack {
        job := Job(false, true, true, true);
        return;
      }
      ghost var rolled := sw.items;
      var ok;
      panicked, ok := ReopenAllStores(o, true);
      CreatedIsSame(rolled);
      if panicked {
        return;
      }
      if !ok {
        job := Job(false, true, true, true);
        return;
      }
      gateEngaged := false;
      job := Job(false, true, true, job.needsIntervention);
    }

    // ----- the run -----

    /** Pausing every store; store 0 is the user store when auth is enabled. False means one failed. */
    method PauseAll(o: Outcomes) returns (panicked: bool, ok: bool)
      requires Valid()
      modifies this`stores
      ensures Valid()
      ensures !panicked && ok <==> forall s: nat :: s < |stores| ==> o(Pause(s)).Succeeds?
      ensures !panicked && !ok <==> old(PauseStops(o))
      ensures !panicked && ok ==> AllReleased(stores)
      ensures panicked ==> exists s: nat :: s < |stores| && o(Pause(s)).Panics?
    {
      for s := 0 to |stores|
        invariant Valid()
        invariant forall u: nat :: u < s ==> o(Pause(u)).Succeeds? && Released(stores[u])
      {
        match o(Pause(s)) {
          case Panics => return true, false;
          case Fails =>
            PauseStore(s);
            return false, false;
          case Succeeds =>
            PauseStore(s);
        }
      }
      return false, true;
    }

    /** Removing the stale WAL sidecars of every database that is staged, as far as the stat finds it. */
    method CleanWalSidecars(o: Outcomes) returns (panicked: bool, ok: bool)
      requires Valid()
      ensures ok <==> CleansWell(o)
      ensures panicked ==> !ok && exists i :: i in walFiles && o(CleanWal(i)).Panics?
      ensures !panicked && !ok <==> CleanStops(o)
    {
      assert forall j :: 0 <= j < |walFiles| ==> walFiles[j] in walFiles;
      for k := 0 to |walFiles|
        invariant forall j :: 0 <= j < k && sw.items[walFiles[j]].staged.Some? && o(StatStaged(walFiles[j])).Succeeds? ==>
                    o(CleanWal(walFiles[j])).Succeeds?
      {
        var i := walFiles[k];
        if sw.items[i].staged.None? || !o(StatStaged(i)).Succeeds? {
          continue;
        }
        if o(CleanWal(i)) != Succeeds {
          return o(CleanWal(i)).Panics?, false;
        }
      }
      return false, true;
    }

    /** Reopening every store on the restored files; session and label clean-up failures do not count. */
    method ReplaceAll(o: Outcomes) returns (panicked: bool, ok: bool)
      requires Valid()
      modifies this`stores, sw
      ensures Valid() && OnlyCreated(old(sw.items))
      ensures !panicked && ok ==> AllServing(stores, sw.items)
      ensures !panicked && ok <==> ReplacesWell(o)
      ensures !panicked && !ok <==> ReplaceStops(o)
    {
      for s := 0 to |stores|
        invariant Valid() && OnlyCreated(old(sw.items))
        invariant forall u: nat :: u < s ==> Serving(stores[u], sw.items) && o(Replace(u)).Succeeds?
        invariant s > 0 && hasAuth ==> !o(InvalidateSessions).Panics? && (hasResolver ==> !o(ReloadResolver).Panics?)
      {
        match o(Replace(s)) {
          case Panics => return true, false;
          case Fails => return false, false;
          case Succeeds =>
            NextReopened(s, old(sw.items));
            if s == 0 && hasAuth {
              if o(InvalidateSessions).Panics? || (hasResolver && o(ReloadResolver).Panics?) {
                return true, false;
              }
            }
        }
      }
      return false, true;
    }

    /** reloadAll: tries every settings cache; reloaded are the ones that took the file on disk. */
    method ReloadAll(o: Outcomes) returns (panicked: bool, ok: bool, ghost reloaded: set<nat>)
      requires Valid()
      modifies this`caches
      ensures Valid() && |caches| == |old(caches)|
      ensures forall c :: 0 <= c < |caches| ==>
                caches[c] == if c in reloaded then Cache(old(caches)[c].file, sw.items[old(caches)[c].file].live) else old(caches)[c]
      ensures !panicked ==> (ok <==> forall c :: 0 <= c < |caches| ==> c in reloaded)
      ensures !panicked && ok <==> forall c: nat :: c < |caches| ==> o(Reload(c)).Succeeds?
      ensures !panicked && !ok <==> old(ReloadStops(o))
    {
      ok, reloaded := true, {};
      for c := 0 to |caches|
        invariant Valid() && |caches| == |old(caches)|
        invariant forall d :: d in reloaded ==> d < c
        invariant forall d :: 0 <= d < |caches| ==>
                    caches[d] == if d in reloaded then Cache(old(caches)[d].file, sw.items[old(caches)[d].file].live) else old(caches)[d]
        invariant ok <==> forall d :: 0 <= d < c ==> d in reloaded
        invariant ok <==> forall d: nat :: d < c ==> o(Reload(d)).Succeeds?
        invariant forall d: nat :: d < c ==> !o(Reload(d)).Panics?
      {
        match o(Reload(c)) {
          case Panics => return true, false, reloaded;
          case Fails => ok := false;
          case Succeeds =>
            caches := caches[c := Cache(caches[c].file, sw.items[caches[c].file].live)];
            reloaded := reloaded + {c};
        }
      }
      panicked := false;
    }

    /** Requests are let in, and every store serves them from the file on disk. */
    ghost predicate Ready()
      reads this, sw
    {
      Valid() && !gateEngaged && AllServing(stores, sw.items)
    }

    ghost predicate NoMixture(original: seq<Option<Content>>, captured: seq<Option<Content>>)
      reads sw
    {
      AllOriginal(sw.items, view, original) || AllRestored(sw.items, view, original, captured)
    }

    /**
     The steps before the swap, from whatever gate and stores an earlier run has left. Nothing on disk
     changes but that missing databases are created; Go means the stores are released. A failed validation
     changes nothing at all; every other error that ends the job opens the gate.
     */
    method Prepare(o: Outcomes) returns (r: Prepared)
      requires Valid() && job.running && !job.needsIntervention
      modifies this, sw
      ensures Valid() && caches == old(caches) && OnlyCreated(old(sw.items)) && (r.Go? ==> sw.items == old(sw.items))
      ensures r.Unwound? || r.Go? ==> job == old(job)
      ensures r.Unwound? && gateEngaged ==> sw.items == old(sw.items)
      ensures r.Go? ==> gateEngaged && AllReleased(stores)
      ensures r.Go? <==> old(PreparesWell(o))
      ensures r.JobFinished? ==> job == Job(false, true, true, job.needsIntervention)
      ensures !o(Validate).Succeeds? ==>
                && gateEngaged == old(gateEngaged) && stores == old(stores) && sw.items == old(sw.items)
                && (if o(Validate).Fails? then r.JobFinished? && !job.needsIntervention else r.Unwound?)
      ensures o(Validate).Succeeds? && r.JobFinished? ==> !gateEngaged
      ensures o(Validate).Succeeds? && r.JobFinished? && !job.needsIntervention ==> AllServing(stores, sw.items)
      ensures o(Validate).Succeeds? ==> (r.JobFinished? && !job.needsIntervention <==> old(PrepareStops(o) && ReopensWell(o, false)))
    {
      match o(Validate) {
        case Panics => return Unwound;
        case Fails =>
          job := Job(false, true, true, job.needsIntervention);
          return JobFinished;
        case Succeeds =>
      }
      gateEngaged := true;
      if o(Drain).Panics? {
        return Unwound;
      }
      var panicked, ok := PauseAll(o);
      if !panicked && ok {
        panicked, ok := CleanWalSidecars(o);
      }
      if !panicked && !ok {
        panicked := RecoverStores(o);
        return if panicked then Unwound else JobFinished;
      }
      return if panicked then Unwound else Go;
    }

    /** Reopening the stores and, once they are open, reloading the settings caches. */
    method ReopenAndReload(o: Outcomes) returns (panicked: bool, ok: bool, ghost reloaded: set<nat>)
      requires Valid()
      modifies this`stores, this`caches, sw
      ensures Valid() && OnlyCreated(old(sw.items)) && |caches| == |old(caches)|
      ensures forall c :: 0 <= c < |caches| ==>
                caches[c] == if c in reloaded then Cache(old(caches)[c].file, view.At(old(caches)[c].file, old(sw.items)[old(caches)[c].file].live))
                             else old(caches)[c]
      ensures !panicked && ok ==> AllServing(stores, sw.items) && forall c :: 0 <= c < |caches| ==> c in reloaded
      ensures !panicked && ok <==> old(ReplacesWell(o)) && forall c: nat :: c < |caches| ==> o(Reload(c)).Succeeds?
      ensures !panicked && !ok <==> old(CompleteStops(o))
    {
      reloaded := {};
      panicked, ok := ReplaceAll(o);
      if panicked || !ok {
        return;
      }
      CreatedIsSame(old(sw.items));
      ServedIsThere();
      panicked, ok, reloaded := ReloadAll(o);
    }

    /** The end of a run that goes well: the set-aside copies go, requests come in again, the job is done. */
    method Commit(o: Outcomes, commitFails: seq<bool>) returns (panicked: bool)
      requires |commitFails| == |sw.items|
      modifies this`gateEngaged, this`job, sw
      ensures !gateEngaged && |sw.items| == |old(sw.items)| && forall i :: 0 <= i < |sw.items| ==> sw.items[i].live == old(sw.items)[i].live
      ensures forall i :: 0 <= i < |sw.items| && old(sw.items)[i].swapped && !commitFails[i] ==> sw.items[i].pre.None?
      ensures panicked <==> o(Resync).Panics?
      ensures job == if panicked then old(job) else Job(false, true, false, job.needsIntervention)
      ensures job.needsIntervention == old(job.needsIntervention)
    {
      sw.CommitAll(commitFails);
      gateEngaged := false;
      if o(Resync).Panics? {
        return true;
      }
      job := Job(false, true, false, job.needsIntervention);
      panicked := false;
    }

    /** The steps from a completed swap to the end: reopen, reload, commit. */
    method Complete(o: Outcomes, f: Faults, ghost original: seq<Option<Content>>, ghost captured: seq<Option<Content>>)
        returns (panicked: bool, ghost reloaded: set<nat>)
      requires |f.roll| == |f.commitFails| == |sw.items| && InFailure(f, original, captured, |sw.items|)
      requires AllLanded(sw.items, view, original, captured, f.swap) && job.running
      requires forall i :: 0 <= i < |sw.items| && sw.items[i].movedAside ==> sw.items[i].live.Some?
      requires AllSwapped(sw.items, captured, f.swap)
      modifies this, sw
      ensures Valid() && |sw.items| == |old(sw.items)|
      ensures panicked ==> job == old(job)
      ensures !panicked ==> job == Job(false, true, job.failed, job.needsIntervention)
      ensures !gateEngaged && (panicked || job.needsIntervention) ==> AllLanded(sw.items, view, original, captured, f.swap)
      ensures !panicked && !job.needsIntervention ==>
                !gateEngaged && AllServing(stores, sw.items) &&
                if job.failed then AllBack(sw.items, view, original, captured, f, |sw.items|)
                else AllLanded(sw.items, view, original, captured, f.swap)
      ensures gateEngaged && NothingLost(original, captured, f, |sw.items|) ==> AllSafe(sw.items, original)
      ensures CachesAfter(old(caches), caches, reloaded, view, original, captured, f.swap)
      ensures !panicked && job.needsIntervention ==> job.failed
      ensures !panicked && !job.failed ==> forall c :: 0 <= c < |caches| ==> c in reloaded
      ensures !panicked && !job.failed <==> old(CompletesWell(o))
      ensures !panicked && !job.failed ==> CopiesGone(sw.items, captured, f)
      ensures !panicked && job.failed && !job.needsIntervention <==>
                old(CompleteStops(o) && RollsBackWell(o, f, original, captured, |sw.items|))
    {
      if NothingLost(original, captured, f, |sw.items|) {
        SwappedIsSafe(sw.items, view, original, captured, f, |sw.items|);
      }
      var ok;
      panicked, ok, reloaded := ReopenAndReload(o);
      CreatedIsSame(old(sw.items));
      if panicked {
        return;
      }
      if !ok {
        panicked := RollbackOrIntervene(o, f, original, captured, |sw.items|);
        return;
      }
      panicked := Commit(o, f.commitFails);
    }

    /** The run from the swap on: what goes wrong in it, without a panic, is undone. */
    method SwapAndComplete(o: Outcomes, f: Faults, ghost original: seq<Option<Content>>, ghost captured: seq<Option<Content>>)
        returns (panicked: bool, ghost reloaded: set<nat>, ghost reached: nat)
      requires Valid() && gateEngaged && AllReleased(stores) && job.running && !job.needsIntervention
      requires |f.swap| == |f.roll| == |f.commitFails| == |sw.items| && AllFresh(sw.items, original, captured)
      modifies this, sw
      ensures Valid() && |sw.items| == |old(sw.items)| && FirstFailure(old(sw.items), f.swap, reached)
      ensures panicked ==> job == old(job)
      ensures !panicked ==> !job.running && job.done
      ensures !panicked && job.needsIntervention ==> job.failed
      ensures !gateEngaged && (panicked || job.needsIntervention) ==> AllLanded(sw.items, view, original, captured, f.swap)
      ensures !panicked && !job.needsIntervention ==>
                !gateEngaged && AllServing(stores, sw.items) &&
                if job.failed then AllBack(sw.items, view, original, captured, f, reached)
                else AllLanded(sw.items, view, original, captured, f.swap)
      ensures gateEngaged && NothingLost(original, captured, f, reached) ==> AllSafe(sw.items, original)
      ensures CachesAfter(old(caches), caches, reloaded, view, original, captured, f.swap)
      ensures !panicked && !job.failed ==> forall c :: 0 <= c < |caches| ==> c in reloaded
      ensures !panicked && !job.failed <==> old(CompletesWell(o) && !SwapStops(f))
      ensures !panicked && !job.failed ==> CopiesGone(sw.items, captured, f)
      ensures !panicked && job.failed && !job.needsIntervention <==>
                old((CompleteStops(o) || SwapStops(f)) && RollsBackWell(o, f, original, captured, reached))
    {
      reloaded := {};
      ghost var before := sw.items;
      var ok;
      ok, reached := SwapFiles(f.swap);
      SwapReaches(before, sw.items, view, f.swap, reached, original, captured);
      if !ok {
        panicked := RollbackOrIntervene(o, f, original, captured, reached);
        return;
      }
      SwapMarks(before, sw.items, f.swap, reached, original, captured);
      panicked, reloaded := Complete(o, f, original, captured);
    }

    /** How far the swap comes in a run: not at all, or to the first item whose step fails, or to the last. */
    ghost predicate Reached(o: Outcomes, f: Faults, n: nat)
      requires |f.swap| == |sw.items|
      reads this, sw
    {
      if PreparesWell(o) then FirstFailure(sw.items, f.swap, n) else n == 0
    }

    /** runFromZipPath, on the swapper newSwapper has just built. */
    method RunFromZipPath(o: Outcomes, f: Faults, ghost original: seq<Option<Content>>, ghost captured: seq<Option<Content>>)
        returns (panicked: bool, ghost reloaded: set<nat>, ghost reached: nat)
      requires Valid() && job.running && !job.needsIntervention
      requires |f.swap| == |f.roll| == |f.commitFails| == |sw.items| && AllFresh(sw.items, original, captured)
      modifies this, sw
      ensures Valid() && |sw.items| == |old(sw.items)|
      ensures old(Reached(o, f, reached))
      ensures panicked ==> job == old(job)
      ensures !panicked ==> !job.running && job.done
      ensures !gateEngaged ==>
                || AllLanded(sw.items, view, original, captured, f.swap)
                || AllBack(sw.items, view, original, captured, f, reached)
      ensures !panicked && !job.needsIntervention ==>
                if job.failed then AllBack(sw.items, view, original, captured, f, reached)
                else AllLanded(sw.items, view, original, captured, f.swap)
      ensures !panicked && !job.needsIntervention && o(Validate).Succeeds? ==> !gateEngaged && AllServing(stores, sw.items)
      ensures !o(Validate).Succeeds? ==>
                && gateEngaged == old(gateEngaged) && stores == old(stores) && sw.items == old(sw.items)
                && (if o(Validate).Fails? then !panicked && job.failed && !job.needsIntervention else panicked)
      ensures gateEngaged && NothingLost(original, captured, f, reached) ==> AllSafe(sw.items, original)
      ensures CachesAfter(old(caches), caches, reloaded, view, original, captured, f.swap)
      ensures !panicked && job.needsIntervention ==> job.failed
      ensures !panicked && !job.failed ==> forall c :: 0 <= c < |caches| ==> c in reloaded
      ensures !panicked && !job.failed <==> old(GoesWell(o, f))
      ensures !panicked && !job.failed ==> CopiesGone(sw.items, captured, f)
      ensures !panicked && job.failed && !job.needsIntervention <==> old(EndsOrdinarily(o, f, original, captured, reached))
    {
      reloaded, reached := {}, 0;
      var r := Prepare(o);
      CreatedIsSame(old(sw.items));
      if !r.Go? {
        return r.Unwound?, reloaded, reached;
      }
      panicked, reloaded, reached := SwapAndComplete(o, f, original, captured);
    }

    /** The run gets past validation and fails before the swap, nothing panics, and the stores reopen. */
    ghost predicate StopsBeforeSwap(o: Outcomes)
      reads this, sw
    {
      o(Validate).Succeeds? && PreparesCalmly(o) && !PreparesWell(o) && ReopensWell(o, false)
    }

    lemma {:induction false} FirstPauseStops(o: Outcomes, n: nat)
      requires PreparesCalmly(o) && n <= |stores| && exists s: nat :: s < n && !o(Pause(s)).Succeeds?
      ensures PauseStops(o)
    {
      if s: nat :| s < n - 1 && !o(Pause(s)).Succeeds? {
        FirstPauseStops(o, n - 1);
      } else {
        assert o(Pause(n - 1)).Fails?;
      }
    }

    lemma {:induction false} FirstCleanStops(o: Outcomes, n: nat)
      requires PreparesCalmly(o) && n <= |walFiles|
      requires exists k: nat :: k < n && NeedsClean(o, walFiles[k]) && !o(CleanWal(walFiles[k])).Succeeds?
      ensures CleanStops(o)
    {
      if k: nat :| k < n - 1 && NeedsClean(o, walFiles[k]) && !o(CleanWal(walFiles[k])).Succeeds? {
        FirstCleanStops(o, n - 1);
      } else {
        assert NeedsClean(o, walFiles[n - 1]) && o(CleanWal(walFiles[n - 1])).Fails?;
      }
    }

    /** Where nothing panics, the first step that does not go through fails. */
    lemma CalmStopIsStop(o: Outcomes)
      requires StopsBeforeSwap(o)
      ensures PrepareStops(o)
    {
      if s: nat :| s < |stores| && !o(Pause(s)).Succeeds? {
        FirstPauseStops(o, |stores|);
      } else {
        var i :| i in walFiles && NeedsClean(o, i) && !o(CleanWal(i)).Succeeds?;
        var k: nat :| k < |walFiles| && walFiles[k] == i;
        FirstCleanStops(o, |walFiles|);
      }
    }

    /**
     runGuarded, from whatever gate and stores an earlier run has left: a panic anywhere ends in
     NeedsIntervention, with the gate as it was then. `original` is what is on disk when the run starts.

     A finished run never leaves a mixture of it and the captured contents behind an open gate as long as
     os.Stat tells the truth: every item is wholly original, or every captured item is wholly restored. A
     wrong answer costs exactly this: a run that goes through restores everything exactly when it skipped no
     captured item that differs, and leaves a mixture exactly when it skipped some such items and not all; a
     run that ends with an ordinary error leaves everything as it was but for the items whose only copy was
     missed. Behind an ordinary error the wiki is ready for requests exactly if the run got past
     validation, or it was ready before.
     */
    method RunGuarded(o: Outcomes, f: Faults, ghost original: seq<Option<Content>>, ghost captured: seq<Option<Content>>)
        returns (ghost reloaded: set<nat>, ghost reached: nat)
      requires Valid() && job.running && !job.needsIntervention
      requires |f.swap| == |f.roll| == |f.commitFails| == |sw.items| && AllFresh(sw.items, original, captured)
      modifies this, sw
      ensures Valid() && !job.running && job.done && |sw.items| == |old(sw.items)|
      ensures old(Reached(o, f, reached))
      ensures !gateEngaged ==>
                || AllLanded(sw.items, view, original, captured, f.swap)
                || AllBack(sw.items, view, original, captured, f, reached)
      ensures !gateEngaged && NoneSkipped(view, original, captured, f.swap) && NothingLost(original, captured, f, reached) ==>
                NoMixture(original, captured)
      ensures !job.needsIntervention && job.failed ==>
                AllBack(sw.items, view, original, captured, f, reached)
      ensures !job.needsIntervention && job.failed && NothingLost(original, captured, f, reached) ==> AllOriginal(sw.items, view, original)
      ensures !job.failed ==> AllLanded(sw.items, view, original, captured, f.swap) && !job.needsIntervention
      ensures !job.failed ==> (AllRestored(sw.items, view, original, captured) <==> NoneSkipped(view, original, captured, f.swap))
      ensures !job.failed ==>
                (NoMixture(original, captured) <==> NoneSkipped(view, original, captured, f.swap) || NoneChanged(view, original, captured, f.swap))
      ensures gateEngaged && NothingLost(original, captured, f, reached) ==> AllSafe(sw.items, original)
      ensures !job.needsIntervention ==> (Ready() <==> o(Validate).Succeeds? || old(Ready()))
      ensures o(Validate).Fails? ==>
                && job == Job(false, true, true, false) && gateEngaged == old(gateEngaged) && stores == old(stores) && sw.items == old(sw.items)
      ensures old(StopsBeforeSwap(o)) ==> job.failed && !job.needsIntervention
      ensures CachesAfter(old(caches), caches, reloaded, view, original, captured, f.swap)
      ensures !job.failed ==> forall c :: 0 <= c < |caches| ==> c in reloaded
      ensures !job.failed <==> old(GoesWell(o, f))
      ensures !job.failed ==> CopiesGone(sw.items, captured, f)
      ensures job.failed && !job.needsIntervention <==> old(EndsOrdinarily(o, f, original, captured, reached))
    {
      if StopsBeforeSwap(o) { CalmStopIsStop(o); }
      var panicked;
      panicked, reloaded, reached := RunFromZipPath(o, f, original, captured);
      if panicked {
        job := Job(false, true, true, true);
      }
      if AllLanded(sw.items, view, original, captured, f.swap) {
        LandedIff(sw.items, view, original, captured, f.swap);
      }
      if AllBack(sw.items, view, original, captured, f, reached) {
        BackIsOriginalIff(sw.items, view, original, captured, f, reached);
      }
    }

    // ----- a run started over one that needs intervention -----

    /**
     What starting over NeedsIntervention can do: the earlier run has left a mixture of `first` and `wanted`
     behind an engaged gate. If the new run gets past validation but cannot pause a store, or clean up
     behind one, and the stores reopen, it ends as an ordinary error and opens the gate over the mixture.
     */
    method StartOverOpensTheGate(o: Outcomes, f: Faults, captured: seq<Option<Content>>, ghost first: seq<Option<Content>>,
                                 ghost wanted: seq<Option<Content>>)
      requires Valid() && gateEngaged && job == Job(false, true, true, true)
      requires |captured| == |f.swap| == |f.roll| == |f.commitFails| == |sw.items| && !NoMixture(first, wanted)
      requires o(Validate).Succeeds? && PreparesCalmly(o) && ReopensWell(o, false) && exists s: nat :: s < |stores| && o(Pause(s)).Fails?
      modifies this, sw
      ensures Ready() && job == Job(false, true, true, false) && !NoMixture(first, wanted)
    {
      ghost var before := sw.items;
      var started := Begin(captured);
      ghost var original := seq(|before|, i requires 0 <= i < |before| => before[i].live);
      ghost var reloaded, reached := RunGuarded(o, f, original, captured);
    }

    /** If its validation fails it ends as an ordinary error too: nothing says any more that the gate is engaged for good. */
    method StartOverHidesTheGate(o: Outcomes, f: Faults, captured: seq<Option<Content>>)
      requires Valid() && gateEngaged && job == Job(false, true, true, true) && o(Validate).Fails?
      requires |captured| == |f.swap| == |f.roll| == |f.commitFails| == |sw.items|
      modifies this, sw
      ensures job == Job(false, true, true, false) && gateEngaged && stores == old(stores)
      ensures |sw.items| == |old(sw.items)| && forall i :: 0 <= i < |sw.items| ==> sw.items[i].live == old(sw.items)[i].live
    {
      ghost var before := sw.items;
      var started := Begin(captured);
      ghost var original := seq(|before|, i requires 0 <= i < |before| => before[i].live);
      ghost var reloaded, reached := RunGuarded(o, f, original, captured);
    }
  }

  // ----- settings caches are outside the rollback -----

  /** Every settings cache holds the content of its file. */
  ghost predicate CachesFresh(caches: seq<Cache>, view: View, disk: seq<Option<Content>>)
  {
    forall c :: 0 <= c < |caches| ==> caches[c].file < |disk| && caches[c].content == view.At(caches[c].file, disk[caches[c].file])
  }

  /** A cache that was reloaded from a file whose content at that time differs from the original. */
  ghost predicate ReloadedAway(caches: seq<Cache>, reloaded: set<nat>, view: View, original: seq<Option<Content>>,
                               captured: seq<Option<Content>>, f: seq<SwapFaults>)
    requires |original| == |captured| == |f|
  {
    exists c :: 0 <= c < |caches| && c in reloaded && caches[c].file < |f| &&
                Changed(view.At(caches[c].file, original[caches[c].file]), captured[caches[c].file], f[caches[c].file])
  }

  /**
   After a run that failed in the settings reload and rolled back, the caches agree with the disk
   again exactly when no cache had already taken a restored content that differs from the original.
   */
  lemma RolledBackCachesFreshIff(before: seq<Cache>, after: seq<Cache>, reloaded: set<nat>, view: View, original: seq<Option<Content>>,
                                 captured: seq<Option<Content>>, f: seq<SwapFaults>)
    requires CachesFresh(before, view, original) && CachesAfter(before, after, reloaded, view, original, captured, f)
    ensures CachesFresh(after, view, original) <==> !ReloadedAway(after, reloaded, view, original, captured, f)
  {
    if c :| 0 <= c < |after| && !(after[c].file < |original| && after[c].content == view.At(after[c].file, original[after[c].file])) {
      assert before[c].content == view.At(before[c].file, original[before[c].file]);
      assert c in reloaded && Changed(view.At(after[c].file, original[after[c].file]), captured[after[c].file], f[after[c].file]);
    }
    if ReloadedAway(after, reloaded, view, original, captured, f) {
      var c :| 0 <= c < |after| && c in reloaded && after[c].file < |f| &&
               Changed(view.At(after[c].file, original[after[c].file]), captured[after[c].file], f[after[c].file]);
      assert after[c].content == captured[after[c].file];
    }
  }
}

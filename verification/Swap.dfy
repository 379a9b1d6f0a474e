/**
 The swapper of internal/restore/swap.go: rename-aside, rename-in, and back.

 An item is a restorable file or directory with the three paths it moves between; no two items
 share a path, and the pre-restore path carries a fresh time stamp. Contents are whole files or
 whole directory trees. Every file-system call can fail. os.Stat can also report an error for a path
 that is there; the code then treats the path as absent.
 */
module Swap {
  import opened Common

  type Content = string

  datatype Item = Item(live: Option<Content>, staged: Option<Content>, pre: Option<Content>,
                       movedAside: bool, swapped: bool)

  /** What goes wrong for one item in SwapAll. */
  datatype SwapFaults = SwapFaults(stagedStatErrs: bool, liveStatErrs: bool, asideFails: bool, inFails: bool)

  /** What goes wrong for one item in RollbackAll; a failed removal leaves `remains` at the live path. */
  datatype RollFaults = RollFaults(removeFails: bool, remains: Option<Content>, preStatErrs: bool, renameFails: bool)

  /** An item before the swap. */
  function Fresh(live: Option<Content>, staged: Option<Content>): Item
  {
    Item(live, staged, None, false, false)
  }

  /** The calls that fail a round of SwapAll: for an item that is staged and found there, moving the live one aside, or moving in. */
  predicate SwapFails(it: Item, f: SwapFaults)
  {
    it.staged.Some? && !f.stagedStatErrs && ((it.live.Some? && !f.liveStatErrs && f.asideFails) || f.inFails)
  }

  /** The calls that fail a round of RollbackAll: for an item put aside, the removal, or moving back a copy that is found. */
  predicate RollFails(it: Item, f: RollFaults)
  {
    it.movedAside && (f.removeFails || (it.pre.Some? && !f.preStatErrs && f.renameFails))
  }

  /** One round of SwapAll's loop. */
  function SwapOne(it: Item, f: SwapFaults): Item
  {
    if it.staged.None? || f.stagedStatErrs then it
    else if it.live.Some? && !f.liveStatErrs && f.asideFails then it
    else
      var aside := if it.live.Some? && !f.liveStatErrs then it.(live := None, pre := it.live) else it;
      var moved := aside.(movedAside := true);
      if f.inFails then moved
      else moved.(live := it.staged, staged := None, swapped := true)
  }

  /** One round of RollbackAll's loop. */
  function RollOne(it: Item, f: RollFaults): Item
  {
    if !it.movedAside then it
    else if f.removeFails then it.(live := f.remains)
    else
      var removed := it.(live := None);
      if it.pre.None? || f.preStatErrs then removed.(movedAside := false, swapped := false)
      else if f.renameFails then removed
      else removed.(live := it.pre, pre := None, movedAside := false, swapped := false)
  }

  // ----- one item -----

  /** A round of SwapAll fails exactly when an item that is staged, and found there, does not end up swapped. */
  lemma SwapFailsIff(it: Item, f: SwapFaults)
    requires !it.swapped
    ensures SwapFails(it, f) <==> it.staged.Some? && !f.stagedStatErrs && !SwapOne(it, f).swapped
  {
  }

  /** A round of RollbackAll fails exactly when the item stays put aside for the next attempt. */
  lemma RollFailsIff(it: Item, f: RollFaults)
    ensures RollFails(it, f) <==> RollOne(it, f).movedAside
  {
  }

  /**
   The original content o (None when the item did not exist) is safe: untouched at the live path, or
   set aside whole at the pre-restore path, with the flags saying which.
   */
  ghost predicate Safe(it: Item, o: Option<Content>)
  {
    && (it.swapped ==> it.movedAside)
    && (if it.movedAside then it.pre == o else it.live == o && it.pre.None?)
  }

  /** An existing original is at exactly one of the two paths: the flag tells which, and the other holds no copy of ours. */
  lemma SafeMeansOnePlace(it: Item, o: Option<Content>)
    requires Safe(it, o) && o.Some?
    ensures (it.live == o && it.pre.None?) != (it.pre == o)
  {
  }

  /** The live path's stat was wrong about an item that is there and is about to be replaced. */
  ghost predicate MissedLive(it: Item, f: SwapFaults)
  {
    it.staged.Some? && !f.stagedStatErrs && it.live.Some? && f.liveStatErrs
  }

  /** The pre-restore path's stat was wrong about a copy that is there. */
  ghost predicate MissedCopy(it: Item, f: RollFaults)
  {
    it.movedAside && !f.removeFails && it.pre.Some? && f.preStatErrs
  }

  /** A swap step keeps the original safe exactly when the stat of the live path did not miss it. */
  lemma SwapKeepsSafeIff(it: Item, f: SwapFaults)
    requires !it.movedAside && !it.swapped && it.pre.None?
    ensures Safe(SwapOne(it, f), it.live) <==> !MissedLive(it, f)
  {
  }

  /** What the miss costs: whatever else happens, one error-free rollback afterwards destroys the original. */
  lemma MissedLiveIsLost(it: Item, f: SwapFaults, g: RollFaults)
    requires !it.movedAside && !it.swapped && it.pre.None? && MissedLive(it, f)
    requires !RollFails(SwapOne(it, f), g)
    ensures RollOne(SwapOne(it, f), g).live.None? && RollOne(SwapOne(it, f), g).pre.None?
  {
  }

  /** A rollback step keeps the original safe exactly when the stat of the copy did not miss it. */
  lemma RollKeepsSafeIff(it: Item, o: Option<Content>, f: RollFaults)
    requires Safe(it, o)
    ensures Safe(RollOne(it, f), o) <==> !MissedCopy(it, f)
    ensures !MissedCopy(it, f) && !RollFails(it, f) ==>
              RollOne(it, f).live == o && RollOne(it, f).pre.None? && !RollOne(it, f).movedAside
  {
  }

  function RollMany(it: Item, fs: seq<RollFaults>): Item
  {
    if fs == [] then it else RollOne(RollMany(it, fs[..|fs| - 1]), fs[|fs| - 1])
  }

  /** The item when rollback k begins. */
  function Before(it: Item, fs: seq<RollFaults>, k: nat): Item
    requires k <= |fs|
  {
    RollMany(it, fs[..k])
  }

  /** No stat along the way missed the copy. */
  ghost predicate NeverMissed(it: Item, fs: seq<RollFaults>)
  {
    forall k :: 0 <= k < |fs| ==> !MissedCopy(Before(it, fs, k), fs[k])
  }

  /** Some rollback so far reported no error. */
  ghost predicate Recovered(it: Item, fs: seq<RollFaults>)
  {
    exists k :: 0 <= k < |fs| && !RollFails(Before(it, fs, k), fs[k])
  }

  lemma SameBefore(it: Item, fs: seq<RollFaults>, last: RollFaults, k: nat)
    requires k <= |fs|
    ensures Before(it, fs + [last], k) == Before(it, fs, k) && (k < |fs| ==> (fs + [last])[k] == fs[k])
    ensures Before(it, fs, |fs|) == RollMany(it, fs)
  {
    assert (fs + [last])[..k] == fs[..k] && fs[..|fs|] == fs;
  }

  lemma NeverMissedBefore(it: Item, fs: seq<RollFaults>, last: RollFaults)
    requires NeverMissed(it, fs + [last])
    ensures NeverMissed(it, fs) && !MissedCopy(RollMany(it, fs), last)
  {
    forall k | 0 <= k < |fs|
      ensures !MissedCopy(Before(it, fs, k), fs[k])
    {
      SameBefore(it, fs, last, k);
      assert !MissedCopy(Before(it, fs + [last], k), (fs + [last])[k]);
    }
    SameBefore(it, fs, last, |fs|);
    assert !MissedCopy(Before(it, fs + [last], |fs|), (fs + [last])[|fs|]);
  }

  lemma RecoveredBefore(it: Item, fs: seq<RollFaults>, last: RollFaults)
    requires Recovered(it, fs + [last])
    ensures Recovered(it, fs) || !RollFails(RollMany(it, fs), last)
  {
    var k :| 0 <= k < |fs + [last]| && !RollFails(Before(it, fs + [last], k), (fs + [last])[k]);
    SameBefore(it, fs, last, k);
  }

  /**
   Through a swap step that may fail anywhere and any number of rollbacks that may fail anywhere, the
   original stays safe; and once one rollback reports no error the live path is the original again,
   also when the original did not exist.
   */
  lemma {:induction false} SafeThroughRollbacks(it: Item, o: Option<Content>, fs: seq<RollFaults>)
    requires Safe(it, o) && NeverMissed(it, fs)
    ensures Safe(RollMany(it, fs), o)
    ensures Recovered(it, fs) ==> RollMany(it, fs).live == o && !RollMany(it, fs).movedAside
  {
    if fs != [] {
      var front, last := fs[..|fs| - 1], fs[|fs| - 1];
      assert fs == front + [last];
      NeverMissedBefore(it, front, last);
      if Recovered(it, fs) { RecoveredBefore(it, front, last); }
      SafeThroughRollbacks(it, o, front);
      RollKeepsSafeIff(RollMany(it, front), o, last);
    }
  }

  // ----- one item, swapped and rolled back -----

  /** Of an item that was swapped as sf has it and rolled back as rf has it, the original is gone. */
  ghost predicate Lost(o: Option<Content>, c: Option<Content>, sf: SwapFaults, rf: RollFaults)
  {
    MissedLive(Fresh(o, c), sf) || MissedCopy(SwapOne(Fresh(o, c), sf), rf)
  }

  /** A rollback that reports no error brings the original back, or leaves nothing at all where it was lost. */
  lemma RolledBackLive(o: Option<Content>, c: Option<Content>, sf: SwapFaults, rf: RollFaults)
    requires !RollFails(SwapOne(Fresh(o, c), sf), rf)
    ensures RollOne(SwapOne(Fresh(o, c), sf), rf).live == if Lost(o, c, sf, rf) then None else o
  {
  }

  /**
   The calls that fail the rollback of an item that was swapped as sf has it: the item was put aside - which
   includes one that did not exist, or whose stat missed it - and either the removal fails, or there is a
   copy, the stat finds it, and moving it back fails.
   */
  predicate UndoFails(o: Option<Content>, c: Option<Content>, sf: SwapFaults, rf: RollFaults)
  {
    && c.Some? && !sf.stagedStatErrs && (o.None? || sf.liveStatErrs || !sf.asideFails)
    && (rf.removeFails || (o.Some? && !sf.liveStatErrs && !rf.preStatErrs && rf.renameFails))
  }

  lemma UndoFailsIff(o: Option<Content>, c: Option<Content>, sf: SwapFaults, rf: RollFaults)
    ensures UndoFails(o, c, sf, rf) <==> RollFails(SwapOne(Fresh(o, c), sf), rf)
  {
  }

  /** What is at an item's live path after a swap step that went through. */
  function Landed(o: Option<Content>, c: Option<Content>, f: SwapFaults): Option<Content>
  {
    if c.Some? && !f.stagedStatErrs then c else o
  }

  lemma SwappedLive(o: Option<Content>, c: Option<Content>, f: SwapFaults)
    requires !SwapFails(Fresh(o, c), f)
    ensures SwapOne(Fresh(o, c), f).live == Landed(o, c, f)
  {
  }

  // ----- all items -----

  /** The result of SwapAll over the first n items, the rest untouched. */
  ghost predicate SwappedUpTo(before: seq<Item>, after: seq<Item>, f: seq<SwapFaults>, n: nat)
    requires |f| == |before|
  {
    && |after| == |before| && n <= |before|
    && (forall i :: 0 <= i < n ==> after[i] == SwapOne(before[i], f[i]))
    && (forall i :: n <= i < |before| ==> after[i] == before[i])
  }

  /** SwapAll comes as far as item n - 1: the first one whose step fails, or the last one. */
  ghost predicate FirstFailure(before: seq<Item>, f: seq<SwapFaults>, n: nat)
    requires |f| == |before|
  {
    && n <= |before|
    && (forall i :: 0 <= i < n - 1 ==> !SwapFails(before[i], f[i]))
    && (n < |before| ==> n > 0 && SwapFails(before[n - 1], f[n - 1]))
  }

  class Swapper {
    var items: seq<Item>

    /** newSwapper: pairs every live item with its staged replacement. */
    constructor (live: seq<Option<Content>>, staged: seq<Option<Content>>)
      requires |live| == |staged|
      ensures |items| == |live| && forall i :: 0 <= i < |live| ==> items[i] == Fresh(live[i], staged[i])
    {
      items := seq(|live|, i requires 0 <= i < |live| => Fresh(live[i], staged[i]));
    }

    /** SwapAll stops at the first failure and does not roll back itself. */
    method SwapAll(f: seq<SwapFaults>) returns (ok: bool, ghost n: nat)
      requires |f| == |items|
      modifies this
      ensures SwappedUpTo(old(items), items, f, n)
      ensures ok <==> forall i :: 0 <= i < |f| ==> !SwapFails(old(items)[i], f[i])
      ensures FirstFailure(old(items), f, n)
    {
      n := 0;
      for i := 0 to |items|
        invariant n == i && SwappedUpTo(old(items), items, f, i)
        invariant forall j :: 0 <= j < i ==> !SwapFails(old(items)[j], f[j])
      {
        n := i + 1;
        var it := items[i];
        if it.staged.None? || f[i].stagedStatErrs {
          continue;
        }
        if it.live.Some? && !f[i].liveStatErrs {
          if f[i].asideFails {
            return false, n;
          }
          items := items[i := it.(live := None, pre := it.live)];
        }
        items := items[i := items[i].(movedAside := true)];
        if f[i].inFails {
          return false, n;
        }
        items := items[i := items[i].(live := it.staged, staged := None)];
        items := items[i := items[i].(swapped := true)];
      }
      ok := true;
    }

    /** RollbackAll tries every item and reports whether any of them failed. */
    method RollbackAll(f: seq<RollFaults>) returns (ok: bool)
      requires |f| == |items|
      modifies this
      ensures |items| == |old(items)|
      ensures forall i :: 0 <= i < |items| ==> items[i] == RollOne(old(items)[i], f[i])
      ensures ok <==> forall i :: 0 <= i < |items| ==> !RollFails(old(items)[i], f[i])
      ensures ok <==> forall i :: 0 <= i < |items| ==> !items[i].movedAside
    {
      ok := true;
      for i := 0 to |items|
        invariant |items| == |old(items)|
        invariant forall j :: 0 <= j < i ==> items[j] == RollOne(old(items)[j], f[j])
        invariant forall j :: i <= j < |items| ==> items[j] == old(items)[j]
        invariant ok <==> forall j :: 0 <= j < i ==> !RollFails(old(items)[j], f[j])
      {
        var it := items[i];
        if !it.movedAside {
          continue;
        }
        if f[i].removeFails {
          items := items[i := it.(live := f[i].remains)];
          ok := false;
          continue;
        }
        items := items[i := it.(live := None)];
        if it.pre.None? || f[i].preStatErrs {
          items := items[i := items[i].(movedAside := false, swapped := false)];
          continue;
        }
        if f[i].renameFails {
          ok := false;
          continue;
        }
        items := items[i := items[i].(live := it.pre, pre := None, movedAside := false, swapped := false)];
      }
    }

    /** CommitAll removes the copies of the swapped items, as far as it can. */
    method CommitAll(removeFails: seq<bool>)
      requires |removeFails| == |items|
      modifies this
      ensures |items| == |old(items)|
      ensures forall i :: 0 <= i < |items| ==>
                items[i] == if old(items)[i].swapped && !removeFails[i] then old(items)[i].(pre := None) else old(items)[i]
    {
      for i := 0 to |items|
        invariant |items| == |old(items)|
        invariant forall j :: 0 <= j < i ==>
                    items[j] == if old(items)[j].swapped && !removeFails[j] then old(items)[j].(pre := None) else old(items)[j]
        invariant forall j :: i <= j < |items| ==> items[j] == old(items)[j]
      {
        if items[i].swapped && !removeFails[i] {
          items := items[i := items[i].(pre := None)];
        }
      }
    }
  }
}

/**
 applyMaterialize, materializeContent and syncContentFromRemote of internal/backup/tree.go as steps on
 the live directories, with a disk that may fail at any operation. The disk tells names apart by case.
 */
module Applying {
  import opened Common
  import opened GitTrees
  import opened DirTrees
  import opened PullPlan
  import opened Materialize
  import opened Directories

  /** A disk that performs `works` more operations and then fails; a failing write may leave `torn` behind. */
  datatype Disk = Disk(works: nat, torn: Option<Blob>)

  datatype Outcome = Applied | Conflicted | Failed

  /**
   Where a failed apply stopped: `target` after `done` operations of its plan, with `left` in place of
   the write it was at. No target at all when a path was refused before anything changed.
   */
  datatype Stop = Nowhere | At(target: nat, done: nat, left: Option<Blob>)

  /** One target after `done` operations of its plan, with the next write's path torn if something was left. */
  function Interrupted(l: Live, plan: ContentChanges, done: nat, left: Option<Blob>): Live
    requires done <= |OpsOf(plan)|
  {
    var part := LiveRun(l, OpsOf(plan)[..done]);
    if done < |OpsOf(plan)| && OpsOf(plan)[done].Put? && left.Some?
    then LiveStep(part, Put(OpsOf(plan)[done].path, left.value))
    else part
  }

  /** The files of an interrupted target: those of part of the plan, and a torn one if something was left. */
  lemma InterruptedFiles(l: Live, plan: ContentChanges, done: nat, left: Option<Blob>)
    requires done <= |OpsOf(plan)|
    ensures Interrupted(l, plan, done, left).files ==
              if done < |OpsOf(plan)| && OpsOf(plan)[done].Put? && left.Some? then TornAt(l.files, plan, done, left.value)
              else Run(l.files, OpsOf(plan)[..done])
  {
  }

  /** All targets after an apply: complete before the failing one, interrupted at it, untouched after it. */
  ghost predicate StoppedAt(before: seq<Live>, after: seq<Live>, plans: seq<ContentChanges>, stop: Stop)
    requires |before| == |after| == |plans|
  {
    match stop
    case Nowhere => after == before
    case At(target, done, left) => StoppedIn(before, after, plans, target, done, left)
  }

  ghost predicate StoppedIn(before: seq<Live>, after: seq<Live>, plans: seq<ContentChanges>, target: nat, done: nat, left: Option<Blob>)
    requires |before| == |after| == |plans|
  {
    && target < |plans| && done < |OpsOf(plans[target])|
    && (forall t :: 0 <= t < target ==> after[t] == LiveRun(before[t], OpsOf(plans[t])))
    && after[target] == Interrupted(before[target], plans[target], done, left)
    && (forall t :: target < t < |plans| ==> after[t] == before[t])
  }

  /** The operations of the plans before the t-th. */
  function OpsBefore(plans: seq<ContentChanges>, t: nat): nat
    requires t <= |plans|
  {
    if t == 0 then 0 else OpsBefore(plans, t - 1) + |OpsOf(plans[t - 1])|
  }

  /** Why an apply may fail: a path outside the live directory, a disk that gave out, or a file or directory in the way. */
  ghost predicate Excused(before: seq<Live>, plans: seq<ContentChanges>, inside: Path -> bool, disk: Disk, stop: Stop)
    requires |before| == |plans|
  {
    match stop
    case Nowhere => exists t :: 0 <= t < |plans| && !AllInside(plans[t], inside)
    case At(target, done, _) =>
      && target < |plans| && done < |OpsOf(plans[target])|
      && (OpsBefore(plans, target) + done == disk.works || Refused(before[target], plans[target], done))
  }

  /** The operation is a write that a file or a directory is in the way of. */
  predicate Refused(l: Live, plan: ContentChanges, done: nat)
    requires done < |OpsOf(plan)|
  {
    OpsOf(plan)[done].Put? && Blocked(LiveRun(l, OpsOf(plan)[..done]), OpsOf(plan)[done].path)
  }

  predicate AllInside(plan: ContentChanges, inside: Path -> bool)
  {
    forall i :: 0 <= i < |OpsOf(plan)| ==> inside(OpsOf(plan)[i].path)
  }

  /** Nothing is in the way of the first k operations. */
  ghost predicate NoneRefused(l: Live, plan: ContentChanges, k: nat)
    requires k <= |OpsOf(plan)|
  {
    forall j :: 0 <= j < k ==> !Refused(l, plan, j)
  }

  lemma DeletesAreNotRefused(l: Live, plan: ContentChanges)
    ensures NoneRefused(l, plan, |plan.deletes|)
  {
    forall j | 0 <= j < |plan.deletes|
      ensures !Refused(l, plan, j)
    {
      assert OpsOf(plan)[j] == OpAt(plan, j);
    }
  }

  lemma NoneRefusedMore(l: Live, plan: ContentChanges, k: nat)
    requires k < |OpsOf(plan)| && NoneRefused(l, plan, k) && !Refused(l, plan, k)
    ensures NoneRefused(l, plan, k + 1)
  {
  }

  lemma NoneRefusedGetsThrough(l: Live, plan: ContentChanges)
    requires NoneRefused(l, plan, |OpsOf(plan)|)
    ensures GetsThrough(l, OpsOf(plan))
  {
    forall j | 0 <= j < |OpsOf(plan)| && OpsOf(plan)[j].Put?
      ensures !Blocked(LiveRun(l, OpsOf(plan)[..j]), OpsOf(plan)[j].path)
    {
      assert !Refused(l, plan, j);
    }
  }

  /** All targets get through. */
  ghost predicate AllGetThrough(before: seq<Live>, plans: seq<ContentChanges>)
    requires |plans| == |before|
  {
    forall t :: 0 <= t < |plans| ==> GetsThrough(before[t], OpsOf(plans[t]))
  }

  /** The plans of the first t targets are carried out. */
  ghost predicate DoneTo(now: seq<Live>, before: seq<Live>, plans: seq<ContentChanges>, t: nat)
  {
    && t <= |plans| == |before| == |now|
    && (forall u :: 0 <= u < t ==> now[u] == LiveRun(before[u], OpsOf(plans[u])) && GetsThrough(before[u], OpsOf(plans[u])))
    && (forall u :: t <= u < |now| ==> now[u] == before[u])
  }

  /** One target more, or it stops there. */
  lemma DoneMore(was: seq<Live>, now: seq<Live>, before: seq<Live>, plans: seq<ContentChanges>, t: nat, done: nat, left: Option<Blob>)
    requires DoneTo(was, before, plans, t) && t < |plans| && |now| == |was| && forall u :: 0 <= u < |now| && u != t ==> now[u] == was[u]
    requires done <= |OpsOf(plans[t])| && now[t] == Interrupted(before[t], plans[t], done, left)
    ensures done == |OpsOf(plans[t])| && GetsThrough(before[t], OpsOf(plans[t])) ==> DoneTo(now, before, plans, t + 1)
    ensures done < |OpsOf(plans[t])| ==> StoppedIn(before, now, plans, t, done, left)
  {
    if done == |OpsOf(plans[t])| { assert OpsOf(plans[t])[..done] == OpsOf(plans[t]); }
  }

  /** An apply gets through: no path is outside, the disk holds out, and nothing is in the way of a write. */
  ghost predicate Lets(before: seq<Live>, plans: seq<ContentChanges>, inside: Path -> bool, disk: Disk)
    requires |before| == |plans|
  {
    && (forall t :: 0 <= t < |plans| ==> AllInside(plans[t], inside))
    && OpsBefore(plans, |plans|) <= disk.works
    && AllGetThrough(before, plans)
  }

  lemma {:induction false} OpsAddUp(plans: seq<ContentChanges>, t: nat, u: nat)
    requires t < u <= |plans|
    ensures OpsBefore(plans, t) + |OpsOf(plans[t])| <= OpsBefore(plans, u)
    decreases u
  {
    if t < u - 1 { OpsAddUp(plans, t, u - 1); }
  }

  /** What gets through leaves no excuse. */
  lemma ExcusedIsNotLet(before: seq<Live>, plans: seq<ContentChanges>, inside: Path -> bool, disk: Disk, stop: Stop)
    requires |before| == |plans| && Excused(before, plans, inside, disk, stop)
    ensures !Lets(before, plans, inside, disk)
  {
    if stop.At? { OpsAddUp(plans, stop.target, |plans|); }
  }

  /** The paths of a plan are resolved; one outside the live directory fails it. */
  method ResolveAll(plan: ContentChanges, inside: Path -> bool) returns (ok: bool)
    ensures ok <==> AllInside(plan, inside)
  {
    for i := 0 to |OpsOf(plan)|
      invariant forall j :: 0 <= j < i ==> inside(OpsOf(plan)[j].path)
    {
      if !inside(OpsOf(plan)[i].path) {
        return false;
      }
    }
    ok := true;
  }

  method ResolvePlans(plans: seq<ContentChanges>, inside: Path -> bool) returns (ok: bool)
    ensures ok <==> forall t :: 0 <= t < |plans| ==> AllInside(plans[t], inside)
  {
    for t := 0 to |plans|
      invariant forall u :: 0 <= u < t ==> AllInside(plans[u], inside)
    {
      ok := ResolveAll(plans[t], inside);
      if !ok {
        return;
      }
    }
    ok := true;
  }

  lemma NextOp(l: Live, plan: ContentChanges, k: nat)
    requires k < |OpsOf(plan)|
    ensures LiveRun(l, OpsOf(plan)[..k + 1]) == LiveStep(LiveRun(l, OpsOf(plan)[..k]), OpAt(plan, k))
    ensures OpsOf(plan)[k] == OpAt(plan, k)
  {
    assert OpsOf(plan)[..k + 1][..k] == OpsOf(plan)[..k];
  }

  /** The synced paths hold remote's version now, all others are as they were. */
  ghost predicate SyncedTo(now: Files, was: Files, remote: Files, synced: set<Path>)
  {
    forall p :: Get(now, p) == if p in synced then Get(remote, p) else Get(was, p)
  }

  /** Some file of remote is refused. */
  ghost predicate AnyBlocked(now: Live, remote: Files)
  {
    exists rel :: rel in remote && Blocked(now, rel)
  }

  /** The sync is through with the files of remote but those in todo. */
  ghost predicate SyncSoFar(now: Files, was: Files, remote: Files, synced: set<Path>, todo: set<Path>)
  {
    todo <= remote.Keys && synced == remote.Keys - was.Keys - todo && SyncedTo(now, was, remote, synced)
  }

  lemma SyncStep(now: Files, was: Files, remote: Files, synced: set<Path>, todo: set<Path>, rel: Path)
    requires SyncSoFar(now, was, remote, synced, todo) && rel in todo
    ensures
      if rel in now then SyncSoFar(now, was, remote, synced, todo - {rel})
      else rel !in synced && SyncSoFar(now[rel := remote[rel]], was, remote, synced + {rel}, todo - {rel})
  {
    assert Get(now, rel) == Get(was, rel);
  }

  class LiveDirs {
    /** The files and the directories of each content target, in the targets' fixed order. */
    var files: seq<Files>
    var dirs: seq<set<Path>>

    ghost predicate Valid()
      reads this
    {
      |files| == |dirs| && forall t :: 0 <= t < |files| ==> Sound(Live(files[t], dirs[t]))
    }

    /** One target. */
    function Target(t: nat): Live
      requires t < |files| && t < |dirs|
      reads this
    {
      Live(files[t], dirs[t])
    }

    ghost function Targets(): (all: seq<Live>)
      requires |files| == |dirs|
      reads this
      ensures |all| == |files| && forall t :: 0 <= t < |files| ==> all[t] == Live(files[t], dirs[t])
    {
      seq(|files|, t requires 0 <= t < |files| && |files| == |dirs| reads this => Live(files[t], dirs[t]))
    }

    constructor (start: seq<Live>)
      requires forall t :: 0 <= t < |start| ==> Sound(start[t])
      ensures Valid() && |files| == |start| && forall t :: 0 <= t < |start| ==> Live(files[t], dirs[t]) == start[t]
    {
      files := seq(|start|, t requires 0 <= t < |start| => start[t].files);
      dirs := seq(|start|, t requires 0 <= t < |start| => start[t].dirs);
    }

    /** Every target but t is as it was. */
    twostate predicate OnlyChanges(t: nat)
      reads this
    {
      && |files| == |old(files)| && |dirs| == |old(dirs)|
      && (forall u :: 0 <= u < |files| && u != t ==> files[u] == old(files)[u])
      && (forall u :: 0 <= u < |dirs| && u != t ==> dirs[u] == old(dirs)[u])
    }

    /** removeEmptyParents: empty directories go, from the one p was in upwards. */
    method RemoveEmptyParents(t: nat, p: Path)
      requires Valid() && t < |files|
      modifies this`dirs
      ensures Valid() && OnlyChanges(t) && Target(t) == Cleaned(old(Target(t)), Front(p))
    {
      CleanedKeepsSound(Target(t), Front(p));
      var dir := Front(p);
      while dir != [] && dir in dirs[t] && Empty(Target(t), dir)
        invariant |files| == |dirs| && OnlyChanges(t) && Cleaned(Target(t), dir) == Cleaned(old(Target(t)), Front(p))
        decreases |dir|
      {
        dirs := dirs[t := dirs[t] - {dir}];
        dir := Front(dir);
      }
    }

    /** os.Remove of one file and the clean-up behind it. */
    method DeleteFile(t: nat, p: Path)
      requires Valid() && t < |files|
      modifies this
      ensures Valid() && OnlyChanges(t) && Target(t) == LiveStep(old(Target(t)), Remove(p))
    {
      StepKeepsSound(Target(t), Remove(p));
      files := files[t := files[t] - {p}];
      assert Target(t) == old(Target(t)).(files := old(Target(t)).files - {p});
      RemoveEmptyParents(t, p);
    }

    /** The deletes of one target's plan. */
    method DeleteFiles(t: nat, plan: ContentChanges, works: nat) returns (done: nat)
      requires Valid() && t < |files|
      modifies this
      ensures Valid() && OnlyChanges(t) && done == if works < |plan.deletes| then works else |plan.deletes|
      ensures Target(t) == LiveRun(old(Target(t)), OpsOf(plan)[..done])
    {
      done := 0;
      while done < |plan.deletes| && done < works
        invariant Valid() && OnlyChanges(t) && done <= |plan.deletes| && done <= works
        invariant Target(t) == LiveRun(old(Target(t)), OpsOf(plan)[..done])
      {
        NextOp(old(Target(t)), plan, done);
        DeleteFile(t, plan.deletes[done]);
        done := done + 1;
      }
    }

    /** writeLiveBlob; something in the way or a worn-out disk stops it, the latter perhaps half way. */
    method WriteLiveBlob(t: nat, w: PlannedWrite, works: nat, torn: Option<Blob>) returns (ok: bool, left: Option<Blob>)
      requires Valid() && t < |files|
      modifies this
      ensures Valid() && OnlyChanges(t)
      ensures ok <==> works > 0 && !Blocked(old(Target(t)), w.rel)
      ensures ok ==> Target(t) == LiveStep(old(Target(t)), Put(w.rel, w.blob))
      ensures !ok ==> Target(t) == if left.Some? then LiveStep(old(Target(t)), Put(w.rel, left.value)) else old(Target(t))
      ensures left.Some? ==> !ok && left == torn
    {
      if Blocked(Target(t), w.rel) {
        return false, None;
      }
      ok := works > 0;
      left := if ok then None else torn;
      if ok || left.Some? {
        var blob := if ok then w.blob else left.value;
        PutKeepsSound(Target(t), w.rel, blob);
        dirs := dirs[t := dirs[t] + Parents(w.rel)];
        files := files[t := files[t][w.rel := blob]];
      }
    }

    /** The k-th operation of one target's plan, a write, when those before it are done. */
    method WriteNext(t: nat, plan: ContentChanges, k: nat, works: nat, torn: Option<Blob>, ghost before: Live)
        returns (ok: bool, left: Option<Blob>)
      requires Valid() && t < |files| && |plan.deletes| <= k < |OpsOf(plan)| && Target(t) == LiveRun(before, OpsOf(plan)[..k])
      modifies this
      ensures Valid() && OnlyChanges(t)
      ensures ok ==> works > 0 && left == None && Target(t) == LiveRun(before, OpsOf(plan)[..k + 1]) && !Refused(before, plan, k)
      ensures !ok ==> (works == 0 || Refused(before, plan, k)) && Target(t) == Interrupted(before, plan, k, left)
    {
      NextOp(before, plan, k);
      ok, left := WriteLiveBlob(t, plan.writes[k - |plan.deletes|], works, torn);
    }

    /** The writes of one target's plan, once its deletes are done. */
    method WriteFiles(t: nat, plan: ContentChanges, works: nat, torn: Option<Blob>, ghost before: Live)
        returns (ok: bool, done: nat, left: Option<Blob>)
      requires Valid() && t < |files| && Target(t) == LiveRun(before, OpsOf(plan)[..|plan.deletes|])
      modifies this
      ensures Valid() && OnlyChanges(t) && done <= |OpsOf(plan)| && (ok <==> done == |OpsOf(plan)|)
      ensures |plan.deletes| <= done <= |plan.deletes| + works
      ensures !ok && done < |plan.deletes| + works ==> Refused(before, plan, done)
      ensures Target(t) == Interrupted(before, plan, done, left)
      ensures NoneRefused(before, plan, done)
    {
      done, left := |plan.deletes|, None;
      DeletesAreNotRefused(before, plan);
      while done < |OpsOf(plan)|
        invariant Valid() && OnlyChanges(t) && |plan.deletes| <= done <= |OpsOf(plan)| && done <= |plan.deletes| + works
        invariant Target(t) == LiveRun(before, OpsOf(plan)[..done])
        invariant NoneRefused(before, plan, done)
      {
        ok, left := WriteNext(t, plan, done, works - (done - |plan.deletes|), torn, before);
        if !ok {
          return;
        }
        NoneRefusedMore(before, plan, done);
        done := done + 1;
      }
      ok := true;
    }

    /** The part of applyMaterialize that carries out one target's plan. */
    method ApplyTarget(t: nat, plan: ContentChanges, disk: Disk)
        returns (ok: bool, done: nat, left: Option<Blob>)
      requires Valid() && t < |files|
      modifies this
      ensures Valid() && OnlyChanges(t)
      ensures done <= |OpsOf(plan)| && (ok <==> done == |OpsOf(plan)|) && done <= disk.works
      ensures !ok && done < disk.works ==> Refused(old(Target(t)), plan, done)
      ensures Target(t) == Interrupted(old(Target(t)), plan, done, left)
      ensures ok ==> GetsThrough(old(Target(t)), OpsOf(plan))
    {
      ghost var before := Target(t);
      done := DeleteFiles(t, plan, disk.works);
      if done < |plan.deletes| {
        assert OpsOf(plan)[done] == OpAt(plan, done);
        return false, done, None;
      }
      ok, done, left := WriteFiles(t, plan, disk.works - done, disk.torn, before);
      if ok { NoneRefusedGetsThrough(before, plan); }
    }

    /** The loop of applyMaterialize that carries the plans out. */
    method ApplyPlans(plans: seq<ContentChanges>, ghost inside: Path -> bool, disk: Disk)
        returns (ok: bool, stop: Stop)
      requires Valid() && |plans| == |files|
      modifies this
      ensures Valid() && |files| == |plans|
      ensures ok ==> forall t :: 0 <= t < |plans| ==> Target(t) == LiveRun(old(Targets())[t], OpsOf(plans[t]))
      ensures !ok ==> stop.At? && StoppedAt(old(Targets()), Targets(), plans, stop) && Excused(old(Targets()), plans, inside, disk, stop)
      ensures ok ==> OpsBefore(plans, |plans|) <= disk.works && AllGetThrough(old(Targets()), plans)
    {
      var works := disk.works;
      ghost var before := Targets();
      for t := 0 to |plans|
        invariant Valid() && |files| == |plans| && OpsBefore(plans, t) + works == disk.works
        invariant DoneTo(Targets(), before, plans, t)
      {
        ghost var was := Targets();
        var done, left;
        ok, done, left := ApplyTarget(t, plans[t], Disk(works, disk.torn));
        DoneMore(was, Targets(), before, plans, t, done, left);
        if !ok {
          return false, At(t, done, left);
        }
        works := works - done;
      }
      return true, Nowhere;
    }

    /** applyMaterialize: every path is resolved before anything changes. */
    method ApplyMaterialize(plans: seq<ContentChanges>, inside: Path -> bool, disk: Disk)
        returns (ok: bool, stop: Stop)
      requires Valid() && |plans| == |files|
      modifies this
      ensures Valid() && |files| == |plans|
      ensures ok ==> forall t :: 0 <= t < |plans| ==> Target(t) == LiveRun(old(Targets())[t], OpsOf(plans[t]))
      ensures !ok ==> StoppedAt(old(Targets()), Targets(), plans, stop) && Excused(old(Targets()), plans, inside, disk, stop)
      ensures !ok ==> (stop.Nowhere? <==> exists t :: 0 <= t < |plans| && !AllInside(plans[t], inside))
      ensures ok <==> Lets(old(Targets()), plans, inside, disk)
    {
      var fine := ResolvePlans(plans, inside);
      if !fine {
        return false, Nowhere;
      }
      ghost var before := Targets();
      ok, stop := ApplyPlans(plans, inside, disk);
      if !ok { ExcusedIsNotLet(before, plans, inside, disk, stop); }
    }

    /** materializeContent over planned targets: any conflict in any target and nothing is written at all. */
    method MaterializeContent(plans: seq<ContentChanges>, inside: Path -> bool, disk: Disk)
        returns (outcome: Outcome, stop: Stop)
      requires Valid() && |plans| == |files|
      modifies this
      ensures Valid() && |files| == |plans|
      ensures outcome == Conflicted <==> exists t :: 0 <= t < |plans| && plans[t].conflicts != []
      ensures outcome == Conflicted ==> files == old(files) && dirs == old(dirs)
      ensures outcome == Applied ==> forall t :: 0 <= t < |plans| ==> Target(t) == LiveRun(old(Targets())[t], OpsOf(plans[t]))
      ensures outcome == Failed ==>
                StoppedAt(old(Targets()), Targets(), plans, stop) && Excused(old(Targets()), plans, inside, disk, stop)
      ensures outcome != Conflicted ==> (outcome == Applied <==> Lets(old(Targets()), plans, inside, disk))
    {
      for t := 0 to |plans|
        invariant files == old(files) && dirs == old(dirs)
        invariant forall u :: 0 <= u < t ==> plans[u].conflicts == []
      {
        if plans[t].conflicts != [] {
          return Conflicted, Nowhere;
        }
      }
      var ok;
      ok, stop := ApplyMaterialize(plans, inside, disk);
      outcome := if ok then Applied else Failed;
    }

    /** One file of the first-contact sync: written when it is missing and can be. */
    method SyncFile(t: nat, rel: Path, blob: Blob, works: nat) returns (ok: bool)
      requires Valid() && t < |files|
      modifies this
      ensures Valid() && OnlyChanges(t)
      ensures ok <==> rel in old(files)[t] || (works > 0 && !Blocked(old(Target(t)), rel))
      ensures Target(t) == if ok && rel !in old(files)[t] then LiveStep(old(Target(t)), Put(rel, blob)) else old(Target(t))
    {
      if rel in files[t] {
        return true;
      }
      var left;
      ok, left := WriteLiveBlob(t, PlannedWrite(rel, blob), works, None);
    }

    /** The loop body of the sync: one more file of remote is dealt with. */
    method SyncNext(t: nat, remote: Files, rel: Path, works: nat, ghost was: Files, ghost synced: set<Path>, ghost todo: set<Path>)
        returns (ok: bool, left: nat, ghost now: set<Path>)
      requires Valid() && t < |files| && SyncSoFar(files[t], was, remote, synced, todo) && rel in todo
      modifies this
      ensures Valid() && OnlyChanges(t)
      ensures ok ==> SyncSoFar(files[t], was, remote, now, todo - {rel}) && |now| + left == |synced| + works
      ensures !ok ==> files == old(files) && (works == 0 || Blocked(Target(t), rel))
    {
      SyncStep(files[t], was, remote, synced, todo, rel);
      var missing := rel !in files[t];
      ok := SyncFile(t, rel, remote[rel], works);
      now := if missing then synced + {rel} else synced;
      left := if missing && ok then works - 1 else works;
    }

    /**
     syncContentFromRemote for one target: first contact with a remote that has history. Files that
     are there already stay, remote-only files are added, nothing is deleted.
     */
    method SyncFromRemote(t: nat, remote: Files, disk: Disk) returns (ok: bool, ghost synced: set<Path>)
      requires Valid() && t < |files|
      modifies this
      ensures Valid() && OnlyChanges(t)
      ensures ok ==> synced == remote.Keys - old(files)[t].Keys
      ensures !ok ==> |synced| == disk.works || AnyBlocked(Target(t), remote)
      ensures synced <= remote.Keys - old(files)[t].Keys
      ensures SyncedTo(files[t], old(files)[t], remote, synced)
    {
      synced := {};
      ghost var was := files[t];
      var todo, works := remote.Keys, disk.works;
      while todo != {}
        invariant Valid() && OnlyChanges(t) && |synced| + works == disk.works
        invariant SyncSoFar(files[t], was, remote, synced, todo)
      {
        var rel :| rel in todo;
        ghost var now;
        ok, works, now := SyncNext(t, remote, rel, works, was, synced, todo);
        if !ok {
          return false, synced;
        }
        todo, synced := todo - {rel}, now;
      }
      return true, synced;
    }
  }
}

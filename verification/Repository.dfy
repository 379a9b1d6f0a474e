/**
 The backup repository of internal/backup/repo.go: backup cycles, pulls and force pushes over a
 commit graph, while others push to, or rewrite, the remote branch at any moment.

 The remote is seen through single network calls. Each call either does not get through or reaches
 the remote at the moment its branch tip is some commit, or none; between two calls that tip may
 have changed in any way. The mutex of the Go type makes RunBackup, Pull and ForcePush run one
 after another.
 */
module Repository {
  import opened Common
  import opened GitTrees
  import opened DirTrees
  import opened Commits
  import opened PullPlan
  import opened Materialize
  import opened Directories
  import opened Applying
  import S = Splice

  /** prefix is Config.Path; rules, names and inside are the file-name rules of this machine. */
  datatype Config = Config(prefix: Path, hasRemote: bool, rules: Rules, names: NameRule, inside: Path -> bool)

  /** The two content targets, root/ and assets/, in the fixed order of contentTargets. */
  function TargetName(t: nat): string
    requires t < 2
  {
    if t == 0 then "root" else "assets"
  }

  /** ContentTreePaths: where target t lives in the repository tree. */
  function TreePath(cfg: Config, t: nat): Path
    requires t < 2
  {
    cfg.prefix + [TargetName(t)]
  }

  lemma TreePathsApart(cfg: Config, t: nat, u: nat)
    requires t < 2 && u < 2 && t != u
    ensures !(TreePath(cfg, t) <= TreePath(cfg, u)) && TreePath(cfg, t) != []
  {
    assert "root"[0] != "assets"[0];
    assert TreePath(cfg, t)[|cfg.prefix|] == TargetName(t) && TreePath(cfg, u)[|cfg.prefix|] == TargetName(u);
  }

  datatype ConflictKind = HistoriesDiverged | FileConflict
  datatype Status = Fresh | Success | Error | NeedsIntervention(kind: ConflictKind)

  datatype Call = Down | Reached(tip: Option<Commit>)
  /** The calls one operation may make; ack is whether a push that went through is confirmed, relist the look at the tip after one that was not. */
  datatype Net = Net(list: Call, fetch: Call, push: Call, ack: bool, relist: Call)

  datatype Relation = NoBranch | UpToDate | LocalAhead | LocalBehind | Diverged
  datatype Comparison = Comparison(relation: Relation, local: Option<Commit>, remote: Option<Commit>)

  /** compareWithRemote's verdict on two existing histories. */
  predicate Related(relation: Relation, local: Option<Commit>, remote: Commit)
  {
    match relation
    case LocalBehind => local.None? || IsAncestor(local.value, remote)
    case LocalAhead => local.Some? && !IsAncestor(local.value, remote) && IsAncestor(remote, local.value)
    case Diverged => local.Some? && !IsAncestor(local.value, remote) && !IsAncestor(remote, local.value)
    case _ => false
  }

  /** The verdict on two existing histories, by what can be reached from where. */
  ghost predicate Reaches(relation: Relation, local: Option<Commit>, remote: Commit)
  {
    && (relation.LocalBehind? <==> local.None? || Reachable(remote, local.value))
    && (relation.LocalAhead? <==> local.Some? && !Reachable(remote, local.value) && Reachable(local.value, remote))
    && (relation.Diverged? <==> local.Some? && !Reachable(remote, local.value) && !Reachable(local.value, remote))
  }

  lemma RelatedReaches(relation: Relation, local: Option<Commit>, remote: Commit)
    requires Related(relation, local, remote)
    ensures Reaches(relation, local, remote)
    ensures relation.LocalBehind? || (local.Some? && local.value !in remote.parents)
  {
    if local.Some? {
      AncestorIffReachable(local.value, remote);
      AncestorIffReachable(remote, local.value);
      if i :| 0 <= i < |remote.parents| && remote.parents[i] == local.value { ParentIsAncestor(remote, i); }
    }
  }

  /** Whether a force push that compared as cmp replaces the remote tip. */
  ghost predicate ForceLands(head: Option<Commit>, cmp: Comparison, net: Net)
  {
    && !cmp.relation.LocalBehind? && head.Some? && net.push.Reached? && net.push.tip != head
    && (cmp.remote.Some? ==> net.push.tip == cmp.remote)
  }

  /** After a leased push that was not confirmed the remote's tip is seen to be another one than the compared. */
  ghost predicate RemoteHasMoved(head: Option<Commit>, cmp: Comparison, net: Net)
  {
    head.Some? && cmp.remote.Some? && net.relist.Reached? && net.relist.tip != cmp.remote
  }

  /** What CompareWithRemote promises about its result. */
  ghost predicate Compared(head: Option<Commit>, cmp: Comparison, net: Net)
  {
    && net.list.Reached?
    && (cmp.relation.NoBranch? <==> net.list.tip.None?)
    && (cmp.relation.UpToDate? <==> net.list.tip.Some? && net.list.tip == head)
    && (cmp.remote.Some? <==> !cmp.relation.NoBranch? && !cmp.relation.UpToDate?)
    && (cmp.remote.Some? ==> Related(cmp.relation, head, cmp.remote.value))
  }

  /** The remote tip a comparison has seen: the fetched one, or the listed one when nothing was fetched. */
  ghost function SeenTip(cmp: Comparison, net: Net): Option<Commit>
    requires net.list.Reached?
  {
    if cmp.remote.Some? then cmp.remote else net.list.tip
  }

  /**
   "A force push never overwrites a remote tip it has not seen" holds unless the comparison said
   up-to-date or no-branch, where the lease is zero: then any tip that came in since is replaced.
   */
  lemma ForcePushOverwritesUnseenIff(head: Option<Commit>, cmp: Comparison, net: Net)
    requires Compared(head, cmp, net)
    ensures ForceLands(head, cmp, net) && net.push.tip != SeenTip(cmp, net) <==>
              && (cmp.relation.UpToDate? || cmp.relation.NoBranch?)
              && head.Some? && net.push.Reached? && net.push.tip != head && net.push.tip != net.list.tip
  {
    if cmp.remote.Some? {
      assert SeenTip(cmp, net) == cmp.remote;
    }
  }

  /** A force push after an up-to-date comparison drops a commit another client has pushed on top meanwhile. */
  lemma UpToDateForcePushDropsNewCommit(c: Commit, stamp: nat) returns (newer: Commit, cmp: Comparison, net: Net)
    ensures Compared(Some(c), cmp, net) && cmp.relation == UpToDate
    ensures IsAncestor(c, newer) && newer != c && net.push == Reached(Some(newer))
    ensures ForceLands(Some(c), cmp, net)
  {
    newer := Commit(c.tree, [c], stamp);
    assert IsAncestor(c, newer.parents[0]);
    assert Height(c) < Height(newer) by { assert newer.parents[0] == c; }
    cmp := Comparison(UpToDate, Some(c), None);
    net := Net(Reached(Some(c)), Down, Reached(Some(newer)), true, Down);
  }

  /** HEAD strictly behind the compared tip is never pushed. */
  lemma BehindIsNeverForced(head: Commit, cmp: Comparison, net: Net)
    requires Compared(Some(head), cmp, net) && cmp.remote.Some?
    requires IsAncestor(head, cmp.remote.value)
    ensures !ForceLands(Some(head), cmp, net)
  {
  }

  /** compareWithRemote cannot tell: the list failed, or a fetch that was needed. */
  predicate CannotCompare(head: Option<Commit>, tracking: Option<Commit>, net: Net)
  {
    || net.list.Down?
    || (net.list.tip.Some? && net.list.tip != head && (net.fetch.Down? || (net.fetch.tip.None? && tracking.None?)))
  }

  /** The tip that the fetch leaves in the tracking ref. */
  function Fetched(tracking: Option<Commit>, net: Net): Option<Commit>
    requires net.fetch.Reached?
  {
    if net.fetch.tip.Some? then net.fetch.tip else tracking
  }

  /** The remote has no branch, is where HEAD is, or is strictly behind HEAD. */
  predicate NothingToPull(head: Option<Commit>, tracking: Option<Commit>, net: Net)
  {
    && !CannotCompare(head, tracking, net)
    && (net.list.tip.None? || net.list.tip == head ||
        (head.Some? && !IsAncestor(head.value, Fetched(tracking, net).value) && IsAncestor(Fetched(tracking, net).value, head.value)))
  }

  /** An unforced push from HEAD, or from a commit on top of it, goes through and is confirmed. */
  predicate PushWorks(head: Option<Commit>, net: Net)
  {
    net.push.Reached? && net.ack && (net.push.tip.None? || (head.Some? && IsAncestor(net.push.tip.value, head.value)))
  }

  /** An unforced push of HEAD ends well: the remote is there already, or goes forward and confirms it. */
  ghost predicate PushAccepted(head: Option<Commit>, net: Net)
  {
    && head.Some? && net.push.Reached?
    && (net.push.tip == head || (net.ack && (net.push.tip.None? || IsAncestor(net.push.tip.value, head.value))))
  }

  /** HEAD needs no push: there is no remote, or nothing to push, or this process has pushed or pulled that very commit. */
  ghost predicate NothingToPush(cfg: Config, head: Option<Commit>, lastPushed: Option<Commit>)
  {
    !cfg.hasRemote || head.None? || head == lastPushed
  }

  /** No target path, and no directory leading to one, is a file in the commit. */
  ghost predicate PathsFree(cfg: Config, c: Option<Commit>)
  {
    c.None? || forall t, k :: 0 <= t < 2 && 0 < k <= |TreePath(cfg, t)| ==> Lookup(c.value.tree, TreePath(cfg, t)[..k]).None?
  }

  /** The names of target t in c pass the check a pull makes. */
  ghost predicate TargetReadable(cfg: Config, c: Option<Commit>, t: nat)
    requires t < 2
  {
    c.Some? && Subtree(c.value.tree, TreePath(cfg, t)).Some? ==> NamesValid(Subtree(c.value.tree, TreePath(cfg, t)).value, cfg.rules.valid)
  }

  /** All names a pull from base to remote reads pass the check. */
  ghost predicate PullReadable(cfg: Config, base: Option<Commit>, remote: Commit)
  {
    forall t :: 0 <= t < 2 ==> TargetReadable(cfg, base, t) && TargetReadable(cfg, Some(remote), t)
  }

  datatype PushResult = Pushed | RemoteMoved | PushFailed

  // ----- what a pull and a backup do to content -----

  ghost function BlobIn(c: Option<Commit>, p: Path): Option<Blob>
  {
    if c.None? then None else BlobAt(c.value.tree, p)
  }

  /** The live content of target t at p after a pull from base to remote, on a case-sensitive disk. */
  ghost function PulledContent(cfg: Config, base: Option<Commit>, remote: Commit, before: Files, t: nat, p: Path): Option<Blob>
    requires t < 2
  {
    var b, r := BlobIn(base, TreePath(cfg, t) + p), BlobAt(remote.tree, TreePath(cfg, t) + p);
    if base.Some? then (if b != r then r else Get(before, p))
    else if p in before then Get(before, p)
    else r
  }

  ghost predicate PulledFiles(cfg: Config, base: Option<Commit>, remote: Commit, before: seq<Files>, after: seq<Files>)
  {
    |before| == |after| == 2 &&
    (cfg.names.CaseSensitive? ==>
       forall t, p :: 0 <= t < 2 && p != [] ==> Get(after[t], p) == PulledContent(cfg, base, remote, before[t], t, p))
  }

  /** inp is what the plan of target t is made from: its files in base, in remote and on disk. */
  ghost predicate PlansFor(cfg: Config, base: Option<Commit>, remote: Commit, before: Files, t: nat, inp: Inputs)
    requires t < 2
  {
    && inp.live == before && inp.rule == cfg.names && inp.check == base.Some?
    && (cfg.names.CaseFolding? ==> FoldsTo(inp.live, cfg.names.fold, inp.liveFolded))
    && (forall p :: p != [] ==> Get(inp.base, p) == BlobIn(base, TreePath(cfg, t) + p) && Get(inp.remote, p) == BlobAt(remote.tree, TreePath(cfg, t) + p))
    && Get(inp.base, []) == None == Get(inp.remote, [])
  }

  /** The plans a pull may make; they differ only in the order of their paths, and in which of two names that fold together wins. */
  ghost predicate PlansOf(cfg: Config, base: Option<Commit>, remote: Commit, before: seq<Live>, plans: seq<ContentChanges>)
    requires |before| == 2
  {
    |plans| == 2 && forall t :: 0 <= t < 2 ==> IsPlanOf(cfg, base, remote, before[t], t, plans[t])
  }

  ghost predicate IsPlanOf(cfg: Config, base: Option<Commit>, remote: Commit, before: Live, t: nat, plan: ContentChanges)
    requires t < 2
  {
    exists inp :: IsPlan(plan, inp) && PlansFor(cfg, base, remote, before.files, t, inp)
  }

  /**
   Carrying out the plans ends like this: a conflict in any of them stops everything before it begins, else only
   the disk can stop it, and then what was done stays.
   */
  ghost predicate PlansEnd(cfg: Config, before: seq<Live>, after: seq<Live>, plans: seq<ContentChanges>, disk: Disk, ok: bool, status: Status)
    requires |before| == |after| == |plans|
  {
    if exists t :: 0 <= t < |plans| && plans[t].conflicts != [] then !ok && status == NeedsIntervention(FileConflict) && after == before
    else
      && (ok <==> Lets(before, plans, cfg.inside, disk))
      && (ok ==> forall t :: 0 <= t < |plans| ==> after[t] == LiveRun(before[t], OpsOf(plans[t])))
      && (!ok ==> status == Error && exists stop :: StoppedAt(before, after, plans, stop) && Excused(before, plans, cfg.inside, disk, stop))
  }

  /** How a pull ends, what it leaves on disk, and the status it leaves when it fails, in each of the cases there are. */
  ghost predicate PullEnds(cfg: Config, head: Option<Commit>, tracking: Option<Commit>, before: seq<Live>, after: seq<Live>, net: Net,
                           disk: Disk, ok: bool, status: Status)
    requires |before| == |after| == 2
  {
    if CannotCompare(head, tracking, net) then !ok && status == Error && after == before
    else if NothingToPull(head, tracking, net) then ok && after == before
    else
      var remote := Fetched(tracking, net).value;
      if head.Some? && !IsAncestor(head.value, remote) then !ok && status == NeedsIntervention(HistoriesDiverged) && after == before
      else ContentEnds(cfg, head, remote, before, after, disk, ok, status)
  }

  /** The same of a pull that moves from base to remote. */
  ghost predicate ContentEnds(cfg: Config, base: Option<Commit>, remote: Commit, before: seq<Live>, after: seq<Live>, disk: Disk,
                              ok: bool, status: Status)
    requires |before| == |after| == 2
  {
    if !PullReadable(cfg, base, remote) then !ok && status == Error && after == before
    else exists plans :: PlansOf(cfg, base, remote, before, plans) && PlansEnd(cfg, before, after, plans, disk, ok, status)
  }

  lemma BothArePlans(cfg: Config, base: Option<Commit>, remote: Commit, files: seq<Files>, before: seq<Live>, plans: seq<ContentChanges>, inps: seq<Inputs>)
    requires |files| == |before| == |plans| == |inps| == 2 && forall t :: 0 <= t < 2 ==> before[t].files == files[t]
    requires forall t :: 0 <= t < 2 ==> IsPlan(plans[t], inps[t]) && PlansFor(cfg, base, remote, files[t], t, inps[t])
    ensures PlansOf(cfg, base, remote, before, plans)
  {
    forall t | 0 <= t < 2
      ensures IsPlanOf(cfg, base, remote, before[t], t, plans[t])
    {
      assert IsPlan(plans[t], inps[t]) && PlansFor(cfg, base, remote, before[t].files, t, inps[t]);
    }
  }

  /** Applying the plans, as MaterializeContent promises it. */
  lemma OutcomeEnds(cfg: Config, before: seq<Live>, after: seq<Live>, plans: seq<ContentChanges>, disk: Disk, outcome: Outcome, stop: Stop)
    requires |before| == |after| == |plans| && (outcome == Conflicted <==> exists t :: 0 <= t < |plans| && plans[t].conflicts != [])
    requires outcome == Conflicted ==> after == before
    requires outcome != Conflicted ==> (outcome == Applied <==> Lets(before, plans, cfg.inside, disk))
    requires outcome == Applied ==> forall t :: 0 <= t < |plans| ==> after[t] == LiveRun(before[t], OpsOf(plans[t]))
    requires outcome == Failed ==> StoppedAt(before, after, plans, stop) && Excused(before, plans, cfg.inside, disk, stop)
    ensures PlansEnd(cfg, before, after, plans, disk, outcome == Applied, FailStatus(outcome))
  {
  }

  /** The status of a pull whose content could not be applied. */
  function FailStatus(outcome: Outcome): Status
  {
    if outcome == Conflicted then NeedsIntervention(FileConflict) else Error
  }

  /** Some file was changed by the remote, and locally to something else. */
  ghost predicate Conflicting(cfg: Config, base: Option<Commit>, remote: Commit, before: seq<Files>)
    requires |before| == 2
  {
    base.Some? && exists t, p :: 0 <= t < 2 && ConflictAt(cfg, base, remote, before[t], t, p)
  }

  ghost predicate ConflictAt(cfg: Config, base: Option<Commit>, remote: Commit, before: Files, t: nat, p: Path)
    requires t < 2
  {
    var b, r := BlobIn(base, TreePath(cfg, t) + p), BlobAt(remote.tree, TreePath(cfg, t) + p);
    p != [] && b != r && Get(before, p) != b && Get(before, p) != r
  }

  /** tree holds target t's kept live files under its path, and base's files everywhere else. */
  ghost predicate Backed(cfg: Config, files: seq<Files>, base: Option<Commit>, tree: Tree)
    requires |files| == 2
  {
    && (forall t, p :: 0 <= t < 2 && p != [] ==>
          BlobAt(tree, TreePath(cfg, t) + p) ==
          if Kept(cfg.rules, [TargetName(t)], p) then Get(files[t], p) else None)
    && (forall q :: !InTargets(cfg, q) ==> Lookup(tree, q) == if base.None? then None else Lookup(base.value.tree, q))
  }

  /** There is a file to back up under target t. */
  ghost predicate KeepsSome(cfg: Config, files: Files, t: nat)
    requires t < 2
  {
    exists p :: Kept(cfg.rules, [TargetName(t)], p) && p in files
  }

  ghost predicate InTargets(cfg: Config, q: Path)
  {
    TreePath(cfg, 0) <= q || TreePath(cfg, 1) <= q
  }

  /**
   tree is the three-way merge of base, remote and the live files: under a target it has the remote's
   content where the remote changed it and the live file elsewhere, as far as the ignore and name rules
   let files in; outside the targets it has exactly the remote's files. On an unborn branch there is no
   base: a live file stays, and the remote's fill the gaps.
   */
  ghost predicate IsThreeWayMerge(cfg: Config, base: Option<Commit>, remote: Commit, before: seq<Files>, tree: Tree)
    requires |before| == 2
  {
    && (forall t, p :: 0 <= t < 2 && p != [] ==>
          var at := TreePath(cfg, t) + p;
          BlobAt(tree, at) ==
          if !Kept(cfg.rules, [TargetName(t)], p) then None
          else if base.None? then (if p in before[t] then Some(before[t][p]) else BlobAt(remote.tree, at))
          else if BlobAt(base.value.tree, at) != BlobAt(remote.tree, at) then BlobAt(remote.tree, at)
          else Get(before[t], p))
    && (forall q :: !InTargets(cfg, q) ==> Lookup(tree, q) == Lookup(remote.tree, q))
  }

  /** Pulling and then backing up the live files is a three-way merge. */
  lemma CycleIsThreeWayMerge(cfg: Config, base: Option<Commit>, remote: Commit, before: seq<Files>, after: seq<Files>, tree: Tree)
    requires cfg.names.CaseSensitive? && PulledFiles(cfg, base, remote, before, after)
    requires Backed(cfg, after, Some(remote), tree)
    ensures IsThreeWayMerge(cfg, base, remote, before, tree)
  {
    forall t, p | 0 <= t < 2 && p != []
      ensures Get(after[t], p) == PulledContent(cfg, base, remote, before[t], t, p)
    {
    }
  }

  class Repository {
    const cfg: Config
    const live: LiveDirs
    var head: Option<Commit>
    var tracking: Option<Commit>
    var lastPushed: Option<Commit>
    var status: Status
    /** The remote branch tip as this process's last comparison or push left it. */
    var remoteTip: Option<Commit>

    ghost predicate Valid()
      reads this, live
    {
      live.Valid() && |live.files| == 2
    }

    /** A repository opened on its live directories, with the branch wherever it is. */
    constructor (cfg: Config, live: LiveDirs, head: Option<Commit>)
      requires live.Valid() && |live.files| == 2
      ensures Valid() && this.cfg == cfg && this.live == live && this.head == head
    {
      this.cfg, this.live, this.head := cfg, live, head;
      tracking, lastPushed, status, remoteTip := None, None, Fresh, None;
    }

    /** compareWithRemote: list, and fetch when the tip differs from HEAD. */
    method CompareWithRemote(net: Net) returns (r: Result<Comparison, string>)
      modifies this`tracking, this`remoteTip
      ensures r.Err? <==> CannotCompare(head, old(tracking), net)
      ensures r.Ok? ==> Compared(head, r.value, net)
      ensures r.Ok? && r.value.remote.None? ==> tracking == old(tracking)
      ensures r.Ok? && !r.value.relation.NoBranch? && !r.value.relation.UpToDate? ==>
                && r.value.local == head && r.value.remote == tracking && tracking.Some?
                && net.fetch.Reached? && tracking == Fetched(old(tracking), net)
                && Related(r.value.relation, head, tracking.value) && Reaches(r.value.relation, head, tracking.value)
                && (head.Some? && head.value in tracking.value.parents ==> r.value.relation.LocalBehind?)
      ensures remoteTip == if net.list.Down? then old(remoteTip)
                           else if net.list.tip.None? || net.list.tip == head || net.fetch.Down? then net.list.tip
                           else net.fetch.tip
    {
      if net.list.Down? {
        return Err("failed to query remote");
      }
      remoteTip := net.list.tip;
      if net.list.tip.None? {
        return Ok(Comparison(NoBranch, None, None));
      }
      if head == net.list.tip {
        return Ok(Comparison(UpToDate, head, None));
      }
      if net.fetch.Down? {
        return Err("failed to fetch from remote");
      }
      remoteTip := net.fetch.tip;
      // A branch that vanished between list and fetch leaves the tracking ref as it was.
      if net.fetch.tip.Some? {
        tracking := net.fetch.tip;
      }
      if tracking.None? {
        return Err("failed to resolve fetched remote branch");
      }
      var cmp := Comparison(if head.None? || IsAncestor(head.value, tracking.value) then LocalBehind
                            else if IsAncestor(tracking.value, head.value) then LocalAhead else Diverged, head, tracking);
      RelatedReaches(cmp.relation, head, tracking.value);
      return Ok(cmp);
    }

    /**
     push: without force only a fast-forward lands; with force and a lease only while the remote tip
     is still the leased commit; with force and no lease anything is overwritten.
     */
    method Push(force: bool, lease: Option<Commit>, net: Net) returns (r: PushResult, ghost landed: bool)
      modifies this`tracking, this`lastPushed, this`remoteTip
      ensures landed <==>
                && head.Some? && net.push.Reached? && net.push.tip != head
                && (if !force then net.push.tip.None? || IsAncestor(net.push.tip.value, head.value)
                    else lease.None? || net.push.tip == lease)
      ensures r == Pushed <==> head.Some? && net.push.Reached? && (net.push.tip == head || (landed && net.ack))
      ensures r == RemoteMoved <==>
                && head.Some? && r != Pushed && force && lease.Some?
                && net.relist.Reached? && net.relist.tip != lease
      ensures tracking == if head.None? then old(tracking) else if landed && r == Pushed then head else if force then lease else None
      ensures landed ==> remoteTip == head
      ensures !landed ==> remoteTip == if head.Some? && net.push.Reached? then net.push.tip else old(remoteTip)
      ensures lastPushed == if r == Pushed then head else old(lastPushed)
    {
      landed := false;
      if head.None? {
        return PushFailed, false;
      }
      // The stale tracking ref is dropped, and set to the lease so that go-git checks it.
      tracking := if force then lease else None;
      if net.push.Reached? {
        remoteTip := net.push.tip;
        if net.push.tip == head {
          lastPushed := head;
          return Pushed, false;
        }
        if !force {
          landed := net.push.tip.None? || IsAncestor(net.push.tip.value, head.value);
          if net.push.tip.None? || IsAncestor(net.push.tip.value, head.value) {
            remoteTip := head;
            if net.ack {
              lastPushed, tracking := head, head;
              return Pushed, landed;
            }
          }
        } else if lease.None? || net.push.tip == lease {
          landed := true;
          remoteTip := head;
          if net.ack {
            lastPushed, tracking := head, head;
            return Pushed, landed;
          }
        }
      }
      if force && lease.Some? && net.relist.Reached? && net.relist.tip != lease {
        return RemoteMoved, landed;
      }
      return PushFailed, landed;
    }

    /** The files of a commit's target, or an error when a name in it is refused. */
    method TargetFiles(c: Option<Commit>, t: nat) returns (ok: bool, files: Files)
      requires t < 2
      ensures ok <==> TargetReadable(cfg, c, t)
      ensures ok ==> forall p :: Get(files, p) == if p == [] then None else BlobIn(c, TreePath(cfg, t) + p)
    {
      if c.None? {
        return true, map[];
      }
      ok, files := FilesUnder(c.value.tree, cfg.rules.valid, TreePath(cfg, t));
    }

    /** planMaterialize for one target. */
    method PlanTarget(base: Option<Commit>, remote: Commit, t: nat) returns (ok: bool, plan: ContentChanges, ghost inp: Inputs)
      requires Valid() && t < 2
      ensures ok <==> TargetReadable(cfg, base, t) && TargetReadable(cfg, Some(remote), t)
      ensures ok ==> IsPlan(plan, inp) && PlansFor(cfg, base, remote, live.files[t], t, inp)
    {
      plan := ContentChanges([], [], []);
      var baseFiles, remoteFiles;
      ok, baseFiles := TargetFiles(base, t);
      inp := Inputs(map[], map[], map[], cfg.names, map[], false);
      if !ok {
        return;
      }
      ok, remoteFiles := TargetFiles(Some(remote), t);
      if !ok {
        return;
      }
      ghost var folded;
      plan, folded := PlanContentChanges(baseFiles, remoteFiles, live.files[t], cfg.names, base.Some?);
      inp := Inputs(baseFiles, remoteFiles, live.files[t], cfg.names, folded, base.Some?);
      assert forall p :: BlobIn(Some(remote), p) == BlobAt(remote.tree, p);
    }

    lemma AppliedTarget(base: Option<Commit>, remote: Commit, t: nat, plan: ContentChanges, inp: Inputs, before: Files)
      requires t < 2 && IsPlan(plan, inp) && plan.conflicts == [] && cfg.names.CaseSensitive?
      requires PlansFor(cfg, base, remote, before, t, inp)
      ensures forall p :: p != [] ==>
                Get(Run(before, OpsOf(plan)), p) == PulledContent(cfg, base, remote, before, t, p)
    {
      if base.Some? {
        CleanPullMerges(plan, inp);
      } else {
        WholePlan(plan, inp);
      }
    }

    /** The plan of a target has a conflict exactly where both sides changed a file. */
    lemma PlanConflicts(base: Option<Commit>, remote: Commit, t: nat, plan: ContentChanges, inp: Inputs, before: Files)
      requires t < 2 && IsPlan(plan, inp) && cfg.names.CaseSensitive? && PlansFor(cfg, base, remote, before, t, inp)
      ensures plan.conflicts != [] <==> base.Some? && exists p :: ConflictAt(cfg, base, remote, before, t, p)
    {
      SomeMember(plan.conflicts);
      if base.Some? {
        forall p
          ensures p in plan.conflicts <==> ConflictAt(cfg, base, remote, before, t, p)
        {
          ConflictIff(plan, inp, p);
        }
      } else {
        assert forall p :: p !in plan.conflicts;
      }
    }

    /** What the two plans say of the whole pull. */
    lemma BothPlans(base: Option<Commit>, remote: Commit, plans: seq<ContentChanges>, inps: seq<Inputs>, before: seq<Files>)
      requires |plans| == |inps| == |before| == 2 && cfg.names.CaseSensitive?
      requires forall t :: 0 <= t < 2 ==> IsPlan(plans[t], inps[t]) && PlansFor(cfg, base, remote, before[t], t, inps[t])
      ensures (exists t :: 0 <= t < 2 && plans[t].conflicts != []) <==> Conflicting(cfg, base, remote, before)
      ensures (forall t :: 0 <= t < 2 ==> plans[t].conflicts == []) ==>
                forall t, p :: 0 <= t < 2 && p != [] ==>
                  Get(Run(before[t], OpsOf(plans[t])), p) == PulledContent(cfg, base, remote, before[t], t, p)
    {
      forall t | 0 <= t < 2
        ensures plans[t].conflicts != [] <==> base.Some? && exists p :: ConflictAt(cfg, base, remote, before[t], t, p)
      {
        PlanConflicts(base, remote, t, plans[t], inps[t], before[t]);
      }
      forall t | 0 <= t < 2 && plans[t].conflicts == []
        ensures forall p :: p != [] ==> Get(Run(before[t], OpsOf(plans[t])), p) == PulledContent(cfg, base, remote, before[t], t, p)
      {
        AppliedTarget(base, remote, t, plans[t], inps[t], before[t]);
      }
    }

    /** The plans of both targets, or an error when a name is refused. */
    method PlanContent(base: Option<Commit>, remote: Commit) returns (ok: bool, plans: seq<ContentChanges>, ghost inps: seq<Inputs>)
      requires Valid()
      ensures ok <==> PullReadable(cfg, base, remote)
      ensures ok ==> |plans| == |inps| == 2
      ensures ok ==> forall t :: 0 <= t < 2 ==> IsPlan(plans[t], inps[t]) && PlansFor(cfg, base, remote, live.files[t], t, inps[t])
    {
      var ok0, plan0, inp0 := PlanTarget(base, remote, 0);
      if !ok0 {
        return false, [], [];
      }
      var ok1, plan1, inp1 := PlanTarget(base, remote, 1);
      return ok1, [plan0, plan1], [inp0, inp1];
    }

    /**
     materializeContent: plan both targets, then apply both plans unless one has a conflict. Conflicted
     is reported exactly for a conflict in a plan, on a disk that tells case apart exactly when both
     sides changed some file; Applied means that both plans were carried out to the end.
     */
    method Materialize(base: Option<Commit>, remote: Commit, disk: Disk)
        returns (outcome: Outcome, ghost plans: seq<ContentChanges>, ghost inps: seq<Inputs>, ghost stop: Stop)
      requires Valid()
      modifies live
      ensures Valid()
      ensures !PullReadable(cfg, base, remote) ==> outcome == Failed && live.files == old(live.files) && live.dirs == old(live.dirs)
      ensures PullReadable(cfg, base, remote) ==>
                && |plans| == |inps| == 2
                && (forall t :: 0 <= t < 2 ==> IsPlan(plans[t], inps[t]) && PlansFor(cfg, base, remote, old(live.files)[t], t, inps[t]))
                && (outcome == Conflicted <==> exists t :: 0 <= t < 2 && plans[t].conflicts != [])
      ensures outcome == Conflicted ==> live.files == old(live.files) && live.dirs == old(live.dirs)
      ensures cfg.names.CaseSensitive? ==>
                (outcome == Conflicted <==> PullReadable(cfg, base, remote) && Conflicting(cfg, base, remote, old(live.files)))
      ensures outcome == Applied ==>
                forall t :: 0 <= t < 2 ==> live.Target(t) == LiveRun(old(live.Targets())[t], OpsOf(plans[t]))
      ensures outcome == Applied ==> PulledFiles(cfg, base, remote, old(live.files), live.files)
      ensures outcome == Failed && PullReadable(cfg, base, remote) ==>
                && StoppedAt(old(live.Targets()), live.Targets(), plans, stop)
                && Excused(old(live.Targets()), plans, cfg.inside, disk, stop)
      ensures PullReadable(cfg, base, remote) ==>
                && PlansOf(cfg, base, remote, old(live.Targets()), plans)
                && PlansEnd(cfg, old(live.Targets()), live.Targets(), plans, disk, outcome == Applied, FailStatus(outcome))
    {
      ghost var before, targets := live.files, live.Targets();
      stop := Nowhere;
      var ok, planned;
      ok, planned, inps := PlanContent(base, remote);
      plans := planned;
      if !ok {
        return Failed, plans, inps, stop;
      }
      outcome, stop := live.MaterializeContent(planned, cfg.inside, disk);
      BothArePlans(cfg, base, remote, before, targets, plans, inps);
      OutcomeEnds(cfg, targets, live.Targets(), plans, disk, outcome, stop);
      if cfg.names.CaseSensitive? {
        BothPlans(base, remote, plans, inps, before);
      }
    }

    /** The part of pullBeforeBackup behind the comparison: the content is applied, and HEAD moves when all of it is. */
    method MoveTo(remote: Commit, disk: Disk) returns (ok: bool)
      requires Valid()
      modifies this`head, this`lastPushed, this`status, live
      ensures Valid() && ContentEnds(cfg, old(head), remote, old(live.Targets()), live.Targets(), disk, ok, status)
      ensures ok ==>
                && head == lastPushed == Some(remote) && status == old(status)
                && PulledFiles(cfg, old(head), remote, old(live.files), live.files) && PullReadable(cfg, old(head), remote)
                && (cfg.names.CaseSensitive? ==> !Conflicting(cfg, old(head), remote, old(live.files)))
      ensures !ok ==> head == old(head) && lastPushed == old(lastPushed) && status in {Error, NeedsIntervention(FileConflict)}
      ensures !ok && status == NeedsIntervention(FileConflict) ==>
                && live.files == old(live.files)
                && (cfg.names.CaseSensitive? ==> Conflicting(cfg, head, remote, old(live.files)))
    {
      var outcome, plans, inps, stop := Materialize(head, remote, disk);
      if outcome != Applied {
        status := FailStatus(outcome);
        return false;
      }
      head := Some(remote);
      lastPushed := head;
      return true;
    }

    /** pullBeforeBackup: HEAD moves only when the remote's changes are on disk, and only forward. */
    method PullBeforeBackup(net: Net, disk: Disk) returns (ok: bool, ghost pulled: bool)
      requires Valid()
      modifies this, live
      ensures Valid()
      ensures pulled ==>
                && ok && head.Some? && FastForward(old(head), head) && lastPushed == head && head == tracking
                && net.fetch.Reached? && head == Fetched(old(tracking), net)
                && PulledFiles(cfg, old(head), head.value, old(live.files), live.files)
                && PullReadable(cfg, old(head), head.value)
      ensures pulled && cfg.names.CaseSensitive? ==> !Conflicting(cfg, old(head), head.value, old(live.files))
      ensures !pulled ==> head == old(head) && lastPushed == old(lastPushed)
      ensures !pulled && ok ==> live.files == old(live.files) && status == old(status)
      ensures !ok ==> !status.Fresh? && !status.Success?
      ensures CannotCompare(old(head), old(tracking), net) ==> !ok && status == Error && live.files == old(live.files)
      ensures NothingToPull(old(head), old(tracking), net) ==> ok && !pulled
      ensures !CannotCompare(old(head), old(tracking), net) && !NothingToPull(old(head), old(tracking), net) ==> pulled == ok
      ensures !ok && status == NeedsIntervention(FileConflict) ==>
                && live.files == old(live.files) && tracking.Some?
                && (cfg.names.CaseSensitive? ==> Conflicting(cfg, head, tracking.value, old(live.files)))
      ensures !ok && status == NeedsIntervention(HistoriesDiverged) ==>
                && live.files == old(live.files) && head.Some? && tracking.Some?
                && !IsAncestor(head.value, tracking.value) && !IsAncestor(tracking.value, head.value)
      ensures PullEnds(cfg, old(head), old(tracking), old(live.Targets()), live.Targets(), net, disk, ok, status)
    {
      var cmp := CompareWithRemote(net);
      if cmp.Err? {
        status := Error;
        return false, false;
      }
      match cmp.value.relation {
        case NoBranch => return true, false;
        case UpToDate => return true, false;
        case LocalAhead => return true, false;
        case Diverged =>
          status := NeedsIntervention(HistoriesDiverged);
          return false, false;
        case LocalBehind =>
      }
      ok := MoveTo(cmp.value.remote.value, disk);
      pulled := ok;
    }

    /** Pull: fetch and fast-forward on demand. */
    method Pull(net: Net, disk: Disk) returns (ok: bool, ghost pulled: bool)
      requires Valid()
      modifies this, live
      ensures Valid() && FastForward(old(head), head)
      ensures pulled ==> ok && head.Some? && PulledFiles(cfg, old(head), head.value, old(live.files), live.files)
      ensures pulled ==> net.fetch.Reached? && head == Fetched(old(tracking), net)
      ensures !pulled ==> head == old(head)
      ensures !pulled && ok ==> live.files == old(live.files)
      ensures if cfg.hasRemote then PullEnds(cfg, old(head), old(tracking), old(live.Targets()), live.Targets(), net, disk, ok, status)
              else ok && !pulled && status == old(status)
      ensures cfg.hasRemote && ok ==> status == Fresh
    {
      if !cfg.hasRemote {
        return true, false;
      }
      ok, pulled := PullBeforeBackup(net, disk);
      if ok {
        status := Fresh;
      }
    }

    /** The tree of one live target, or None when it keeps no file. */
    method BuildTarget(t: nat) returns (r: Option<Tree>)
      requires Valid() && t < 2
      ensures r.Some? ==> S.Solid(r.value)
      ensures r.Some? <==> KeepsSome(cfg, live.files[t], t)
      ensures forall p :: (if r.None? then None else BlobAt(r.value, p)) ==
                if Kept(cfg.rules, [TargetName(t)], p) then Get(live.files[t], p) else None
    {
      var d := DirectoryOf(live.files[t]);
      var tree := BuildDirTree(d, cfg.rules, [TargetName(t)]);
      r := if tree == map[] then None else Some(tree);
      forall p
        ensures BlobAt(tree, p) == if Kept(cfg.rules, [TargetName(t)], p) then Get(live.files[t], p) else None
      {
        assert Lookup(tree, p) == if p != [] && p[0] in d.Keys && Kept(cfg.rules, [TargetName(t)], p) then LiveLookup(d, p) else None;
        assert LiveLookup(d, p) == if p in live.files[t] then Some(Leaf(Regular, live.files[t][p])) else None;
      }
      if r.None? {
        assert forall p :: BlobAt(map[], p) == None;
      }
      NotPresentIffNothingKept(tree, d, cfg.rules, [TargetName(t)]);
    }

    /** buildContentReplacements: the live targets' trees at their repository paths. */
    method BuildContentReplacements() returns (repl: S.Replacements)
      requires Valid()
      ensures repl.Keys == {TreePath(cfg, 0), TreePath(cfg, 1)} && S.Targets(repl) && S.AllSolid(repl)
      ensures forall t :: 0 <= t < 2 ==> (repl[TreePath(cfg, t)].Some? <==> KeepsSome(cfg, live.files[t], t))
      ensures forall t, p :: 0 <= t < 2 ==>
                (if repl[TreePath(cfg, t)].None? then None else BlobAt(repl[TreePath(cfg, t)].value, p)) ==
                if Kept(cfg.rules, [TargetName(t)], p) then Get(live.files[t], p) else None
    {
      var r0 := BuildTarget(0);
      var r1 := BuildTarget(1);
      TreePathsApart(cfg, 0, 1);
      TreePathsApart(cfg, 1, 0);
      repl := map[TreePath(cfg, 0) := r0, TreePath(cfg, 1) := r1];
    }

    lemma BackedUnder(repl: S.Replacements, baseTree: Tree, t: nat, p: Path)
      requires t < 2 && TreePath(cfg, t) in repl && S.Targets(repl)
      ensures BlobAt(S.Spliced(baseTree, repl), TreePath(cfg, t) + p) ==
                if repl[TreePath(cfg, t)].None? then None else BlobAt(repl[TreePath(cfg, t)].value, p)
    {
      var at := TreePath(cfg, t);
      assert (at + p)[|at|..] == p && at <= at + p;
      S.UnderTarget(baseTree, repl, at, at + p);
    }

    lemma SplicedIsBacked(repl: S.Replacements, files: seq<Files>, base: Option<Commit>, tree: Tree)
      requires |files| == 2 && repl.Keys == {TreePath(cfg, 0), TreePath(cfg, 1)} && S.Targets(repl)
      requires forall t, p :: 0 <= t < 2 ==>
                 (if repl[TreePath(cfg, t)].None? then None else BlobAt(repl[TreePath(cfg, t)].value, p)) ==
                 if Kept(cfg.rules, [TargetName(t)], p) then Get(files[t], p) else None
      requires !S.Collides(if base.None? then map[] else base.value.tree, repl)
      requires tree == S.Spliced(if base.None? then map[] else base.value.tree, repl)
      ensures Backed(cfg, files, base, tree)
    {
      var baseTree := if base.None? then map[] else base.value.tree;
      forall t, p | 0 <= t < 2 && p != []
        ensures BlobAt(tree, TreePath(cfg, t) + p) ==
                if Kept(cfg.rules, [TargetName(t)], p) then Get(files[t], p) else None
      {
        BackedUnder(repl, baseTree, t, p);
      }
      forall q | !InTargets(cfg, q)
        ensures Lookup(tree, q) == Lookup(baseTree, q)
      {
        S.OutsideTargets(baseTree, repl, q);
      }
    }

    lemma FreeOrCollides(repl: S.Replacements, base: Option<Commit>)
      requires repl.Keys == {TreePath(cfg, 0), TreePath(cfg, 1)} && S.Targets(repl)
      ensures S.Collides(if base.None? then map[] else base.value.tree, repl) <==> !PathsFree(cfg, base)
    {
      var baseTree := if base.None? then map[] else base.value.tree;
      S.CollidesMeansFileOnTheWay(baseTree, repl);
      if t, k :| S.FileOnTheWay(baseTree, repl, t, k) {
        assert Lookup(map[], t[..k]).None?;
        assert t == TreePath(cfg, 0) || t == TreePath(cfg, 1);
      }
      if !PathsFree(cfg, base) {
        var t, k :| 0 <= t < 2 && 0 < k <= |TreePath(cfg, t)| && Lookup(baseTree, TreePath(cfg, t)[..k]).Some?;
        assert S.FileOnTheWay(baseTree, repl, TreePath(cfg, t), k);
      }
    }

    /** The tree at base with the live content spliced in. */
    method LiveTree(base: Option<Commit>) returns (r: Result<Tree, string>)
      requires Valid()
      ensures r.Ok? <==> PathsFree(cfg, base)
      ensures r.Ok? ==> Backed(cfg, live.files, base, r.value)
      ensures r.Ok? && base.None? ==> (r.value != map[] <==> KeepsSome(cfg, live.files[0], 0) || KeepsSome(cfg, live.files[1], 1))
    {
      var repl := BuildContentReplacements();
      FreeOrCollides(repl, base);
      r := S.SpliceTree(if base.Some? then base.value.tree else map[], repl);
      if r.Ok? {
        SplicedIsBacked(repl, live.files, base, r.value);
        S.SplicedIntoNothing(repl);
      }
    }

    /**
     The part of RunBackup behind the pull: the live content goes into the tree at HEAD, which gets a
     commit on top exactly if it changed and something is there, and an unpushed HEAD is pushed.
     */
    method CommitLive(net: Net, stamp: nat) returns (ok: bool, ghost landed: bool)
      requires Valid()
      modifies this
      ensures Valid()
      ensures status == if ok then Success else Error
      ensures head == old(head) ||
                (head.Some? && head.value.parents == (if old(head).None? then [] else [old(head).value]) &&
                 (old(head).Some? ==> head.value.tree != old(head).value.tree))
      ensures PathsFree(cfg, old(head)) && head.Some? ==> Backed(cfg, live.files, old(head), head.value.tree)
      ensures old(head).None? ==>
                (head.Some? <==> KeepsSome(cfg, live.files[0], 0) || KeepsSome(cfg, live.files[1], 1))
      ensures landed ==> remoteTip == head && net.push.Reached? && FastForward(net.push.tip, head)
      ensures ok && cfg.hasRemote && head.Some? ==> lastPushed == head
      ensures ok && cfg.hasRemote && head != old(head) ==> remoteTip == head
      ensures ok || head != old(head) ==> PathsFree(cfg, old(head))
      ensures PathsFree(cfg, old(head)) && (cfg.hasRemote ==> PushWorks(old(head), net)) ==> ok
      ensures ok <==> PathsFree(cfg, old(head)) &&
                      ((head == old(head) && NothingToPush(cfg, head, old(lastPushed))) || !cfg.hasRemote || PushAccepted(head, net))
    {
      landed := false;
      var baseCommit := head;
      var baseTree: Tree := if baseCommit.Some? then baseCommit.value.tree else map[];
      var spliced := LiveTree(baseCommit);
      if spliced.Err? {
        status := Error;
        return false, false;
      }
      // An empty result is "not present": skipped on an unborn branch, else committed as the empty tree.
      var newTree := spliced.value;
      if newTree == map[] && baseCommit.None? {
        status := Success;
        return true, false;
      }
      if baseCommit.Some? && newTree == baseTree {
        if cfg.hasRemote && head != lastPushed {
          ok, landed := PushHead(net);
          return;
        }
        status := Success;
        return true, landed;
      }
      var commit := Commit(newTree, if baseCommit.Some? then [baseCommit.value] else [], stamp);
      head := Some(commit);
      if cfg.hasRemote {
        if net.push.Reached? { OnTopOf(net.push.tip, baseCommit, commit); }
        ok, landed := PushHead(net);
        return;
      }
      status := Success;
      return true, landed;
    }

    /** An ancestor of HEAD is an ancestor of the commit on top of it. */
    lemma OnTopOf(tip: Option<Commit>, base: Option<Commit>, c: Commit)
      requires base.Some? ==> c.parents == [base.value]
      ensures tip.Some? && base.Some? && IsAncestor(tip.value, base.value) ==> IsAncestor(tip.value, c)
    {
      if base.Some? {
        assert IsAncestor(base.value, c.parents[0]);
        if tip.Some? && IsAncestor(tip.value, base.value) { AncestorsCompose(tip.value, base.value, c); }
      }
    }

    /** The push of a backup cycle, and the status it leaves. */
    method PushHead(net: Net) returns (ok: bool, ghost landed: bool)
      requires Valid() && head.Some?
      modifies this`tracking, this`lastPushed, this`remoteTip, this`status
      ensures status == if ok then Success else Error
      ensures ok ==> lastPushed == head && remoteTip == head
      ensures landed ==> remoteTip == head && net.push.Reached? && FastForward(net.push.tip, head)
      ensures ok <==> PushAccepted(head, net)
    {
      var pushed;
      pushed, landed := Push(false, None, net);
      ok := pushed == Pushed;
      status := if ok then Success else Error;
    }

    /**
     RunBackup. Whatever happens HEAD only moves forward. A cycle that succeeds leaves HEAD with the
     live content under the targets and everything else as in `base`, the commit HEAD was at after
     the pull; HEAD is then base itself, when nothing changed, or one commit on top of it. ready says
     that the pull, if there is a remote, did not stop the cycle.
     */
    method RunBackup(net: Net, disk: Disk, stamp: nat)
        returns (ok: bool, ghost pulled: bool, ghost base: Option<Commit>, ghost landed: bool, ghost ready: bool)
      requires Valid()
      modifies this, live
      ensures Valid() && FastForward(old(head), base) && FastForward(base, head)
      ensures pulled ==> ready && base.Some? && PulledFiles(cfg, old(head), base.value, old(live.files), live.files)
      ensures pulled ==> net.fetch.Reached? && base == Fetched(old(tracking), net)
      ensures ok && pulled && cfg.names.CaseSensitive? ==>
                head.Some? && IsThreeWayMerge(cfg, old(head), base.value, old(live.files), head.value.tree)
      ensures !pulled ==> base == old(head)
      ensures ok ==> ready && status == Success
      ensures ok && !pulled ==> live.files == old(live.files)
      ensures head == base ||
                (head.Some? && head.value.parents == (if base.None? then [] else [base.value]) &&
                 (base.Some? ==> head.value.tree != base.value.tree))
      ensures ready && PathsFree(cfg, base) && head.Some? ==> Backed(cfg, live.files, base, head.value.tree)
      ensures ready && base.None? ==>
                (head.Some? <==> KeepsSome(cfg, live.files[0], 0) || KeepsSome(cfg, live.files[1], 1))
      ensures landed ==> remoteTip == head && net.push.Reached? && FastForward(net.push.tip, head)
      ensures ok && cfg.hasRemote && head.Some? ==> lastPushed == head
      ensures ok && cfg.hasRemote && head != base ==> remoteTip == head
      ensures !cfg.hasRemote || NothingToPull(old(head), old(tracking), net) ==> ready
      ensures ok || head != base ==> ready && PathsFree(cfg, base)
      ensures ready && PathsFree(cfg, base) && (cfg.hasRemote ==> PushWorks(base, net)) ==> ok
      ensures ok <==> ready && PathsFree(cfg, base) &&
                      ((head == base && NothingToPush(cfg, head, if pulled then base else old(lastPushed))) || !cfg.hasRemote ||
                       PushAccepted(head, net))
      ensures cfg.hasRemote ==> PullEnds(cfg, old(head), old(tracking), old(live.Targets()), live.Targets(), net, disk, ready, status)
      ensures ready && !ok ==> status == Error
    {
      pulled, base, landed, ready := false, head, false, true;
      if cfg.hasRemote {
        ok, pulled := PullBeforeBackup(net, disk);
        base, ready := head, ok;
        if !ok {
          return;
        }
      }
      ok, landed := CommitLive(net, stamp);
      if ok && pulled && cfg.names.CaseSensitive? {
        CycleIsThreeWayMerge(cfg, old(head), base.value, old(live.files), live.files, head.value.tree);
      }
      if head != base && base.Some? {
        assert IsAncestor(base.value, head.value.parents[0]);
      }
    }

    /**
     ForcePush. HEAD and the live files stay. Nothing is pushed when HEAD is behind the compared tip;
     after an ahead or diverged comparison the remote is replaced only while its tip is still the
     compared commit; after an up-to-date or no-branch comparison there is no lease at all.
     */
    method ForcePush(net: Net) returns (ok: bool, ghost cmp: Result<Comparison, string>, ghost landed: bool)
      modifies this
      ensures head == old(head)
      ensures landed ==> cmp.Ok? && cfg.hasRemote && remoteTip == head && head.Some? && net.push.Reached?
      ensures landed ==> !cmp.value.relation.LocalBehind?
      ensures cmp.Ok? ==> Compared(head, cmp.value, net)
      ensures landed && cmp.value.remote.Some? ==> net.push.tip == cmp.value.remote
      ensures cfg.hasRemote && cmp.Ok? ==> (landed <==> ForceLands(head, cmp.value, net))
      ensures cmp.Err? <==> !cfg.hasRemote || CannotCompare(head, old(tracking), net)
      ensures ok <==> cmp.Ok? && !cmp.value.relation.LocalBehind? && head.Some? && net.push.Reached? &&
                      (net.push.tip == head || (landed && net.ack))
      ensures status ==
                if !cfg.hasRemote then old(status)
                else if cmp.Err? then Error
                else if ok then Success
                else if cmp.value.relation.LocalBehind? || RemoteHasMoved(head, cmp.value, net) then old(status)
                else Error
    {
      cmp, landed := Err("not compared"), false;
      if !cfg.hasRemote {
        return false, cmp, false;
      }
      var c := CompareWithRemote(net);
      cmp := c;
      if c.Err? {
        status := Error;
        return false, cmp, false;
      }
      if c.value.relation.LocalBehind? {
        return false, cmp, false;
      }
      var r;
      r, landed := Push(true, c.value.remote, net);
      if r == RemoteMoved {
        return false, cmp, landed;
      }
      if r == PushFailed {
        status := Error;
        return false, cmp, landed;
      }
      status := Success;
      return true, cmp, landed;
    }

    /**
     Any interleaving of backups, pulls and force pushes with external pushes: HEAD only ever moves
     to a descendant of where it was.
     */
    method Session(events: seq<Event>)
      requires Valid()
      modifies this, live
      ensures Valid() && FastForward(old(head), head)
    {
      var i := 0;
      while i < |events|
        invariant Valid() && i <= |events| && FastForward(old(head), head)
      {
        ghost var before := head;
        match events[i] {
          case Backup(net, disk, stamp) =>
            var ok, pulled, base, landed, ready := RunBackup(net, disk, stamp);
            FastForwardsCompose(before, base, head);
          case PullNow(net, disk) =>
            var ok, pulled := Pull(net, disk);
          case Force(net) =>
            var ok, cmp, landed := ForcePush(net);
            assert FastForward(before, head) by { if head.Some? { assert IsAncestor(head.value, head.value); } }
        }
        FastForwardsCompose(old(head), before, head);
        i := i + 1;
      }
    }
  }

  datatype Event = Backup(net: Net, disk: Disk, stamp: nat) | PullNow(net: Net, disk: Disk) | Force(net: Net)
}

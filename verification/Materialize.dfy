/**
 What the operations of a pull plan of internal/backup/tree.go make of the live files: the merge they
 amount to, where they stop and what a later pull makes of that, and disks that fold case.
 */
module Materialize {
  import opened Common
  import opened GitTrees
  import opened DirTrees
  import opened PullPlan

  datatype Op = Remove(path: Path) | Put(path: Path, blob: Blob)

  /** One disk operation on a case-sensitive file system. Removing a missing file is fine. */
  function Step(live: Files, op: Op): Files
  {
    match op
    case Remove(p) => live - {p}
    case Put(p, blob) => live[p := blob]
  }

  function Run(live: Files, ops: seq<Op>): Files
  {
    if ops == [] then live else Step(Run(live, ops[..|ops| - 1]), ops[|ops| - 1])
  }

  /** The operations of a plan in the order the code performs them: deletes first. */
  function OpsOf(plan: ContentChanges): (ops: seq<Op>)
    ensures |ops| == |plan.deletes| + |plan.writes|
    ensures forall i :: 0 <= i < |ops| ==> ops[i] == OpAt(plan, i)
  {
    seq(|plan.deletes| + |plan.writes|, i requires 0 <= i < |plan.deletes| + |plan.writes| => OpAt(plan, i))
  }

  function OpAt(plan: ContentChanges, i: nat): Op
    requires i < |plan.deletes| + |plan.writes|
  {
    if i < |plan.deletes| then Remove(plan.deletes[i])
    else Put(plan.writes[i - |plan.deletes|].rel, plan.writes[i - |plan.deletes|].blob)
  }

  lemma SomeMember<T>(s: seq<T>)
    ensures s == [] || exists x :: x in s
  {
    if s != [] { assert s[0] in s; }
  }

  lemma RunNext(live: Files, plan: ContentChanges, k: nat)
    requires k < |OpsOf(plan)|
    ensures Run(live, OpsOf(plan)[..k + 1]) == Step(Run(live, OpsOf(plan)[..k]), OpAt(plan, k))
  {
    assert OpsOf(plan)[..k + 1][..k] == OpsOf(plan)[..k];
  }

  /** What a plan's operations are: each carries out the verdict of its path. */
  lemma OpMeaning(plan: ContentChanges, inp: Inputs, i: nat)
    requires IsPlan(plan, inp) && i < |OpsOf(plan)|
    ensures i < |plan.deletes| ==> OpsOf(plan)[i].Remove? && inp.Verdict(OpsOf(plan)[i].path) == Delete
    ensures i >= |plan.deletes| ==> OpsOf(plan)[i].Put? && inp.Verdict(OpsOf(plan)[i].path) == Write(OpsOf(plan)[i].blob)
  {
    var op := OpsOf(plan)[i];
    assert op == OpAt(plan, i);
    if i < |plan.deletes| {
      assert plan.deletes[i] in plan.deletes;
    } else {
      assert plan.writes[i - |plan.deletes|] in plan.writes;
    }
  }

  /** Every write and delete verdict has its operation. */
  lemma OpFor(plan: ContentChanges, inp: Inputs, p: Path) returns (i: nat)
    requires IsPlan(plan, inp) && (inp.Verdict(p).Write? || inp.Verdict(p).Delete?)
    ensures i < |OpsOf(plan)| && OpsOf(plan)[i].path == p
    ensures inp.Verdict(p).Write? <==> i >= |plan.deletes|
  {
    if inp.Verdict(p).Delete? {
      assert p in plan.deletes;
      i :| 0 <= i < |plan.deletes| && plan.deletes[i] == p;
    } else {
      var w := PlannedWrite(p, inp.Verdict(p).blob);
      assert w in plan.writes;
      var j :| 0 <= j < |plan.writes| && plan.writes[j] == w;
      i := |plan.deletes| + j;
    }
    assert OpsOf(plan)[i] == OpAt(plan, i);
  }

  lemma OpsOnDistinctPaths(plan: ContentChanges, inp: Inputs, i: nat, j: nat)
    requires IsPlan(plan, inp) && i < j < |OpsOf(plan)|
    ensures OpsOf(plan)[i].path != OpsOf(plan)[j].path
  {
    OpMeaning(plan, inp, i);
    OpMeaning(plan, inp, j);
    assert OpsOf(plan)[i] == OpAt(plan, i) && OpsOf(plan)[j] == OpAt(plan, j);
  }

  // ----- the effect of a run of operations, path by path -----

  ghost predicate Touches(ops: seq<Op>, p: Path)
  {
    exists i :: 0 <= i < |ops| && ops[i].path == p
  }

  /** What an operation leaves at its own path. */
  function Leaves(op: Op): Option<Blob>
  {
    match op
    case Remove(_) => None
    case Put(_, blob) => Some(blob)
  }

  lemma {:induction false} RunLeavesOthers(live: Files, ops: seq<Op>, p: Path)
    requires !Touches(ops, p)
    ensures Get(Run(live, ops), p) == Get(live, p)
  {
    if ops != [] {
      var front := ops[..|ops| - 1];
      assert !Touches(front, p) by {
        if i :| 0 <= i < |front| && front[i].path == p { assert ops[i].path == p; }
      }
      RunLeavesOthers(live, front, p);
    }
  }

  /** The last operation on a path decides what is there. */
  lemma {:induction false} LastOpWins(live: Files, ops: seq<Op>, i: nat)
    requires i < |ops| && forall j :: i < j < |ops| ==> ops[j].path != ops[i].path
    ensures Get(Run(live, ops), ops[i].path) == Leaves(ops[i])
  {
    if i < |ops| - 1 {
      var front := ops[..|ops| - 1];
      assert front[i] == ops[i];
      LastOpWins(live, front, i);
    }
  }

  // ----- case-sensitive pulls -----

  /** What one verdict makes of a live file on a case-sensitive file system. */
  ghost function Resolved(inp: Inputs, p: Path): Option<Blob>
  {
    match inp.Verdict(p)
    case Write(blob) => Some(blob)
    case Delete => None
    case _ => Get(inp.live, p)
  }

  /** Part of a plan: every path is either as it was or as the whole plan leaves it. */
  lemma PrefixOfPlan(plan: ContentChanges, inp: Inputs, k: nat)
    requires IsPlan(plan, inp) && k <= |OpsOf(plan)|
    ensures forall p :: Get(Run(inp.live, OpsOf(plan)[..k]), p) ==
              if Touches(OpsOf(plan)[..k], p) then Resolved(inp, p) else Get(inp.live, p)
  {
    var ops := OpsOf(plan)[..k];
    forall p
      ensures Get(Run(inp.live, ops), p) == if Touches(ops, p) then Resolved(inp, p) else Get(inp.live, p)
    {
      if Touches(ops, p) {
        var i :| 0 <= i < |ops| && ops[i].path == p;
        OpMeaning(plan, inp, i);
        forall j | i < j < |ops|
          ensures ops[j].path != p
        {
          OpsOnDistinctPaths(plan, inp, i, j);
        }
        LastOpWins(inp.live, ops, i);
      } else {
        RunLeavesOthers(inp.live, ops, p);
      }
    }
  }

  /** A path no operation of the plan touches keeps its live content, and its verdict says so. */
  lemma UntouchedKeeps(plan: ContentChanges, inp: Inputs, p: Path)
    requires IsPlan(plan, inp)
    ensures !Touches(OpsOf(plan), p) ==> Resolved(inp, p) == Get(inp.live, p)
  {
    if inp.Verdict(p).Write? || inp.Verdict(p).Delete? {
      var i := OpFor(plan, inp, p);
    }
  }

  /** The whole plan leaves every path as its verdict says. */
  lemma WholePlan(plan: ContentChanges, inp: Inputs)
    requires IsPlan(plan, inp)
    ensures forall p :: Get(Run(inp.live, OpsOf(plan)), p) == Resolved(inp, p)
  {
    PrefixOfPlan(plan, inp, |OpsOf(plan)|);
    assert OpsOf(plan)[..|OpsOf(plan)|] == OpsOf(plan);
    forall p
      ensures Get(Run(inp.live, OpsOf(plan)), p) == Resolved(inp, p)
    {
      UntouchedKeeps(plan, inp, p);
    }
  }

  /** The three-way merge of one path, defined without the plan: remote's change wins, else live stays. */
  ghost function Merged(base: Files, remote: Files, live: Files, p: Path): Option<Blob>
  {
    if Get(base, p) != Get(remote, p) then Get(remote, p) else Get(live, p)
  }

  /** A conflict-free pull on a case-sensitive disk is the three-way merge. */
  lemma CleanPullMerges(plan: ContentChanges, inp: Inputs)
    requires IsPlan(plan, inp) && inp.rule.CaseSensitive? && inp.check && plan.conflicts == []
    ensures forall p :: Get(Run(inp.live, OpsOf(plan)), p) == Merged(inp.base, inp.remote, inp.live, p)
  {
    WholePlan(plan, inp);
    forall p
      ensures Resolved(inp, p) == Merged(inp.base, inp.remote, inp.live, p)
    {
      assert p !in plan.conflicts;
    }
  }

  /** Whatever a plan with conflict checks changes held the base version before, and only remote's version replaces it. */
  lemma PullNeverClobbers(plan: ContentChanges, inp: Inputs, k: nat, p: Path)
    requires IsPlan(plan, inp) && inp.rule.CaseSensitive? && inp.check && k <= |OpsOf(plan)|
    requires Get(Run(inp.live, OpsOf(plan)[..k]), p) != Get(inp.live, p)
    ensures Get(inp.live, p) == Get(inp.base, p)
    ensures Get(Run(inp.live, OpsOf(plan)[..k]), p) == Get(inp.remote, p)
  {
    PrefixOfPlan(plan, inp, k);
  }

  /** A path conflicts exactly when all three versions differ from each other's change: remote and live both moved. */
  lemma ConflictIff(plan: ContentChanges, inp: Inputs, p: Path)
    requires IsPlan(plan, inp) && inp.rule.CaseSensitive? && inp.check
    ensures p in plan.conflicts <==>
              && Get(inp.base, p) != Get(inp.remote, p)
              && Get(inp.live, p) != Get(inp.base, p)
              && Get(inp.live, p) != Get(inp.remote, p)
  {
  }

  /**
   Interruption: after any number of a plan's operations, replanning from the same base and remote
   finds no conflict, and carrying the new plan out gives the files an uninterrupted run gives.
   */
  lemma InterruptedPullConverges(plan: ContentChanges, inp: Inputs, k: nat, plan': ContentChanges, inp': Inputs)
    requires IsPlan(plan, inp) && inp.rule.CaseSensitive? && plan.conflicts == [] && k <= |OpsOf(plan)|
    requires inp' == inp.(live := Run(inp.live, OpsOf(plan)[..k])) && IsPlan(plan', inp')
    ensures plan'.conflicts == []
    ensures Run(inp'.live, OpsOf(plan')) == Run(inp.live, OpsOf(plan))
  {
    WholePlan(plan, inp);
    WholePlan(plan', inp');
    PrefixOfPlan(plan, inp, k);
    forall p
      ensures !inp'.Verdict(p).Conflict? && Resolved(inp', p) == Resolved(inp, p)
    {
      assert p !in plan.conflicts;
      assert Get(inp'.live, p) == if Touches(OpsOf(plan)[..k], p) then Resolved(inp, p) else Get(inp.live, p);
    }
    SomeMember(plan'.conflicts);
    SameLookups(Run(inp'.live, OpsOf(plan')), Run(inp.live, OpsOf(plan)));
  }

  /** The files after k operations of a plan when the next one, a write, was cut short and left torn behind. */
  function TornAt(live: Files, plan: ContentChanges, k: nat, torn: Blob): Files
    requires k < |OpsOf(plan)|
  {
    Run(live, OpsOf(plan)[..k])[OpsOf(plan)[k].path := torn]
  }

  /** What a pull that is planned again after a torn write finds: the torn file, and elsewhere what an uninterrupted stop would leave. */
  lemma TornVerdicts(plan: ContentChanges, inp: Inputs, k: nat, torn: Blob, inp': Inputs)
    requires IsPlan(plan, inp) && inp.rule.CaseSensitive? && plan.conflicts == []
    requires k < |OpsOf(plan)| && OpsOf(plan)[k].Put? && inp' == inp.(live := TornAt(inp.live, plan, k, torn))
    ensures
      var p := OpsOf(plan)[k].path;
      && Get(inp.remote, p) == Resolved(inp, p) != Get(inp.base, p) && Get(inp'.live, p) == Some(torn)
      && forall q :: q != p ==> !inp'.Verdict(q).Conflict? && Resolved(inp', q) == Resolved(inp, q)
  {
    var p := OpsOf(plan)[k].path;
    OpMeaning(plan, inp, k);
    PrefixOfPlan(plan, inp, k);
    forall q | q != p
      ensures !inp'.Verdict(q).Conflict? && Resolved(inp', q) == Resolved(inp, q)
    {
      assert q !in plan.conflicts;
      assert Get(inp'.live, q) == if Touches(OpsOf(plan)[..k], q) then Resolved(inp, q) else Get(inp.live, q);
    }
  }

  /** A plan has no conflict when no path but p can, and p does not. */
  lemma ConflictsOnlyAt(plan: ContentChanges, inp: Inputs, p: Path)
    requires IsPlan(plan, inp) && forall q :: q != p ==> !inp.Verdict(q).Conflict?
    ensures plan.conflicts == [] <==> !inp.Verdict(p).Conflict?
  {
    SomeMember(plan.conflicts);
    if plan.conflicts == [] { assert p !in plan.conflicts; }
  }

  /**
   A write cut short leaves some other content behind: os.WriteFile truncates before it writes. The
   next pull, planned from the same base, then converges exactly when that content happens to be the
   base or the remote version; otherwise it reports the file as a conflict.
   */
  lemma TornWriteConvergesIff(plan: ContentChanges, inp: Inputs, k: nat, torn: Blob, plan': ContentChanges, inp': Inputs)
    requires IsPlan(plan, inp) && inp.rule.CaseSensitive? && inp.check && plan.conflicts == []
    requires k < |OpsOf(plan)| && OpsOf(plan)[k].Put?
    requires inp' == inp.(live := TornAt(inp.live, plan, k, torn)) && IsPlan(plan', inp')
    ensures
      var p := OpsOf(plan)[k].path;
      plan'.conflicts == [] <==> Some(torn) == Get(inp.base, p) || Some(torn) == Get(inp.remote, p)
    ensures plan'.conflicts == [] ==> Run(inp'.live, OpsOf(plan')) == Run(inp.live, OpsOf(plan))
  {
    var p := OpsOf(plan)[k].path;
    TornVerdicts(plan, inp, k, torn, inp');
    ConflictsOnlyAt(plan', inp', p);
    WholePlan(plan, inp);
    WholePlan(plan', inp');
    if plan'.conflicts == [] {
      assert forall q :: Resolved(inp', q) == Resolved(inp, q);
      SameLookups(Run(inp'.live, OpsOf(plan')), Run(inp.live, OpsOf(plan)));
    }
  }

  /**
   On an unborn branch there is no base to tell a torn file by. The next first pull reports no conflict
   and keeps the torn content, with every other path as an uninterrupted pull leaves it; a backup then
   commits it over the remote's version.
   */
  lemma FirstPullKeepsTornWrite(plan: ContentChanges, inp: Inputs, k: nat, torn: Blob, plan': ContentChanges, inp': Inputs)
    requires IsPlan(plan, inp) && inp.rule.CaseSensitive? && !inp.check && inp.base == map[]
    requires k < |OpsOf(plan)| && OpsOf(plan)[k].Put?
    requires inp' == inp.(live := TornAt(inp.live, plan, k, torn)) && IsPlan(plan', inp')
    ensures plan'.conflicts == []
    ensures Run(inp'.live, OpsOf(plan')) == Run(inp.live, OpsOf(plan))[OpsOf(plan)[k].path := torn]
    ensures Run(inp'.live, OpsOf(plan')) == Run(inp.live, OpsOf(plan)) <==> Some(torn) == Get(inp.remote, OpsOf(plan)[k].path)
  {
    var p := OpsOf(plan)[k].path;
    var after := Run(inp.live, OpsOf(plan));
    SomeMember(plan.conflicts);
    TornVerdicts(plan, inp, k, torn, inp');
    ConflictsOnlyAt(plan', inp', p);
    WholePlan(plan, inp);
    WholePlan(plan', inp');
    assert forall q :: Get(Run(inp'.live, OpsOf(plan')), q) == Get(after[p := torn], q);
    SameLookups(Run(inp'.live, OpsOf(plan')), after[p := torn]);
    assert Get(after, p) == Get(inp.remote, p);
    assert after[p := torn][p] == torn;
  }

  // ----- case-folding pulls -----

  ghost predicate InjectiveUnder(fold: Path -> Path, files: Files)
  {
    forall p, q :: p in files && q in files && fold(p) == fold(q) ==> p == q
  }

  /** The operations as a case-folding disk sees them: it keeps one file per folded name. */
  function FoldedOps(ops: seq<Op>, fold: Path -> Path): (r: seq<Op>)
    ensures |r| == |ops|
    ensures forall i :: 0 <= i < |ops| ==> r[i].path == fold(ops[i].path) && Leaves(r[i]) == Leaves(ops[i])
  {
    seq(|ops|, i requires 0 <= i < |ops| =>
      match ops[i] case Remove(p) => Remove(fold(p)) case Put(p, blob) => Put(fold(p), blob))
  }

  /** What opening p finds on the case-folding disk once the plan is carried out. */
  ghost function AfterFolded(plan: ContentChanges, inp: Inputs, p: Path): Option<Blob>
    requires inp.rule.CaseFolding?
  {
    Get(Run(inp.liveFolded, FoldedOps(OpsOf(plan), inp.rule.fold)), inp.rule.fold(p))
  }

  ghost predicate FoldedPull(plan: ContentChanges, inp: Inputs)
  {
    && inp.rule.CaseFolding? && inp.check
    && FoldsTo(inp.live, inp.rule.fold, inp.liveFolded)
    && InjectiveUnder(inp.rule.fold, inp.base)
    && InjectiveUnder(inp.rule.fold, inp.remote)
    && InjectiveUnder(inp.rule.fold, inp.live)
    && IsPlan(plan, inp) && plan.conflicts == []
  }

  /**
   No base path the remote deleted folds to a remote path whose spelling the live directory already
   has. This is the exact guard of the branch that loses a file.
   */
  ghost predicate NoShadowedDelete(inp: Inputs)
    requires inp.rule.CaseFolding?
  {
    forall d, p :: d in inp.base && d !in inp.remote && p in inp.remote && inp.rule.fold(d) == inp.rule.fold(p) ==>
                     p !in inp.live
  }

  /** Every remote path that changed is physically there with remote's content. */
  ghost predicate RemoteChangesArrived(plan: ContentChanges, inp: Inputs)
    requires inp.rule.CaseFolding?
  {
    forall p :: p in inp.remote && Get(inp.base, p) != Get(inp.remote, p) ==>
                  AfterFolded(plan, inp, p) == Get(inp.remote, p)
  }

  /** Only remote paths are written, and only remotely deleted base paths are removed. */
  lemma FoldedOpSource(plan: ContentChanges, inp: Inputs, i: nat)
    requires FoldedPull(plan, inp) && i < |OpsOf(plan)|
    ensures OpsOf(plan)[i].Put? ==> OpsOf(plan)[i].path in inp.remote
    ensures OpsOf(plan)[i].Remove? ==> OpsOf(plan)[i].path in inp.base && OpsOf(plan)[i].path !in inp.remote
  {
    OpMeaning(plan, inp, i);
  }

  lemma FoldedWriteLands(plan: ContentChanges, inp: Inputs, p: Path)
    requires FoldedPull(plan, inp) && inp.Verdict(p).Write?
    ensures AfterFolded(plan, inp, p) == Get(inp.remote, p)
  {
    var fold := inp.rule.fold;
    var ops := OpsOf(plan);
    var folded := FoldedOps(ops, fold);
    var i := OpFor(plan, inp, p);
    OpMeaning(plan, inp, i);
    FoldedOpSource(plan, inp, i);
    forall j | i < j < |folded|
      ensures folded[j].path != fold(p)
    {
      OpMeaning(plan, inp, j);
      FoldedOpSource(plan, inp, j);
      OpsOnDistinctPaths(plan, inp, i, j);
    }
    LastOpWins(inp.liveFolded, folded, i);
  }

  lemma FoldedKeepSurvives(plan: ContentChanges, inp: Inputs, p: Path)
    requires FoldedPull(plan, inp) && NoShadowedDelete(inp)
    requires p in inp.remote && p in inp.live && inp.live[p] == inp.remote[p] && inp.Verdict(p).Keep?
    ensures AfterFolded(plan, inp, p) == Get(inp.remote, p)
  {
    var fold := inp.rule.fold;
    var folded := FoldedOps(OpsOf(plan), fold);
    assert !Touches(folded, fold(p)) by {
      if j :| 0 <= j < |folded| && folded[j].path == fold(p) {
        OpMeaning(plan, inp, j);
        FoldedOpSource(plan, inp, j);
        assert false;
      }
    }
    RunLeavesOthers(inp.liveFolded, folded, fold(p));
    assert fold(p) in inp.liveFolded;
  }

  lemma ShadowedDeleteLoses(plan: ContentChanges, inp: Inputs, d: Path, p: Path)
    requires FoldedPull(plan, inp)
    requires d in inp.base && d !in inp.remote && p in inp.remote && inp.rule.fold(d) == inp.rule.fold(p) && p in inp.live
    ensures Get(inp.base, p) != Get(inp.remote, p) && AfterFolded(plan, inp, p) == None
  {
    var fold := inp.rule.fold;
    var folded := FoldedOps(OpsOf(plan), fold);
    assert d !in inp.live && p !in inp.base;
    assert p !in plan.conflicts && d !in plan.conflicts;
    assert fold(p) in inp.liveFolded;
    assert inp.Verdict(p) == Keep && inp.Verdict(d) == Delete;
    var i := OpFor(plan, inp, d);
    forall j | 0 <= j < |folded| && folded[j].path == fold(p)
      ensures Leaves(folded[j]) == None
    {
      OpMeaning(plan, inp, j);
      FoldedOpSource(plan, inp, j);
    }
    AllRemovesRemove(inp.liveFolded, folded, fold(p), i);
  }

  lemma {:induction false} AllRemovesRemove(live: Files, ops: seq<Op>, p: Path, i: nat)
    requires i < |ops| && ops[i].path == p
    requires forall j :: 0 <= j < |ops| && ops[j].path == p ==> Leaves(ops[j]) == None
    ensures Get(Run(live, ops), p) == None
  {
    var last := |ops| - 1;
    if ops[last].path == p {
      assert Leaves(ops[last]) == None;
    } else {
      AllRemovesRemove(live, ops[..last], p, i);
    }
  }

  /**
   With case folding, a conflict-free pull brings in every remote change, case-only renames
   included, exactly when no deleted base path is shadowed by a spelling the live side already has.
   */
  lemma FoldedPullArrivesIff(plan: ContentChanges, inp: Inputs)
    requires FoldedPull(plan, inp)
    ensures RemoteChangesArrived(plan, inp) <==> NoShadowedDelete(inp)
  {
    if NoShadowedDelete(inp) {
      forall p | p in inp.remote && Get(inp.base, p) != Get(inp.remote, p)
        ensures AfterFolded(plan, inp, p) == Get(inp.remote, p)
      {
        assert p !in plan.conflicts;
        if inp.Verdict(p).Write? {
          FoldedWriteLands(plan, inp, p);
        } else {
          FoldedKeepSurvives(plan, inp, p);
        }
      }
    } else {
      var d, p :| d in inp.base && d !in inp.remote && p in inp.remote &&
                  inp.rule.fold(d) == inp.rule.fold(p) && p in inp.live;
      ShadowedDeleteLoses(plan, inp, d, p);
    }
  }

  /** Each operation of a plan finds base's version or already remote's under the folded name it is about. */
  lemma FoldedOpFinds(plan: ContentChanges, inp: Inputs, i: nat)
    requires FoldedPull(plan, inp) && i < |OpsOf(plan)|
    ensures
      var p := OpsOf(plan)[i].path;
      Get(inp.liveFolded, inp.rule.fold(p)) == Get(inp.base, p) || Get(inp.liveFolded, inp.rule.fold(p)) == Get(inp.remote, p)
  {
    var p, fold := OpsOf(plan)[i].path, inp.rule.fold;
    OpMeaning(plan, inp, i);
    if p in inp.live {
      assert fold(p) in inp.liveFolded;
      var q :| q in inp.live && fold(q) == fold(p) && inp.live[q] == inp.liveFolded[fold(p)];
      assert q == p;
    } else {
      assert FindLive(inp.live, inp.rule, inp.liveFolded, p).content == Get(inp.liveFolded, fold(p));
    }
  }

  /** What a run changes at a path, one of its operations on that path has left there. */
  lemma {:induction false} ChangedByOne(live: Files, ops: seq<Op>, p: Path) returns (i: nat)
    requires Get(Run(live, ops), p) != Get(live, p)
    ensures i < |ops| && ops[i].path == p && Get(Run(live, ops), p) == Leaves(ops[i])
  {
    var last := |ops| - 1;
    if ops[last].path == p {
      i := last;
    } else {
      i := ChangedByOne(live, ops[..last], p);
    }
  }

  /**
   No local edit is lost where case is folded: at every moment of carrying a conflict-free plan out, a file
   that changed under its folded name was base's or already remote's version of a path of that name, and is
   gone, or remote's version of such a path, now.
   */
  lemma FoldedPullNeverClobbers(plan: ContentChanges, inp: Inputs, k: nat, name: Path) returns (p: Path)
    requires FoldedPull(plan, inp) && k <= |OpsOf(plan)|
    requires Get(Run(inp.liveFolded, FoldedOps(OpsOf(plan), inp.rule.fold)[..k]), name) != Get(inp.liveFolded, name)
    ensures inp.rule.fold(p) == name && Get(inp.base, p) != Get(inp.remote, p)
    ensures Get(inp.liveFolded, name) == Get(inp.base, p) || Get(inp.liveFolded, name) == Get(inp.remote, p)
    ensures Get(Run(inp.liveFolded, FoldedOps(OpsOf(plan), inp.rule.fold)[..k]), name) == Get(inp.remote, p)
  {
    var folded := FoldedOps(OpsOf(plan), inp.rule.fold);
    var i := ChangedByOne(inp.liveFolded, folded[..k], name);
    assert folded[..k][i] == folded[i];
    p := OpsOf(plan)[i].path;
    FoldedOpFinds(plan, inp, i);
    OpMeaning(plan, inp, i);
  }

  /** A file renamed in case only, from Foo to foo, on the remote and locally. */
  function RenamedOnBothSides(fold: Path -> Path, upper: Path, lower: Path, h: Blob): Inputs
  {
    Inputs(map[upper := h], map[lower := h], map[lower := h], CaseFolding(fold), map[fold(lower) := h], true)
  }

  /** The losing case is real: after that rename the pull reports no conflict and removes the file. */
  lemma CaseRenameOnBothSidesLosesTheFile(fold: Path -> Path, upper: Path, lower: Path, h: Blob, plan: ContentChanges)
    requires upper != lower && fold(upper) == fold(lower)
    requires IsPlan(plan, RenamedOnBothSides(fold, upper, lower, h))
    ensures plan.conflicts == []
    ensures AfterFolded(plan, RenamedOnBothSides(fold, upper, lower, h), lower) == None
  {
    var inp := RenamedOnBothSides(fold, upper, lower, h);
    assert inp.Verdict(upper) == Delete && inp.Verdict(lower) == Keep;
    assert forall p :: p != upper && p != lower ==> inp.Verdict(p) == Keep;
    SomeMember(plan.conflicts);
    ShadowedDeleteLoses(plan, inp, upper, lower);
  }

  // ----- what a write can meet -----

  /**
   A write of a conflict-free plan can clash only with a file that exists locally and in neither
   version: files the remote has never clash, and what the remote deleted is gone by then.
   */
  lemma ClashIsWithLocalOnlyFile(plan: ContentChanges, inp: Inputs, k: nat, q: Path)
    requires IsPlan(plan, inp) && inp.rule.CaseSensitive? && inp.check && plan.conflicts == []
    requires ClashFree(inp.remote) && k < |OpsOf(plan)| && OpsOf(plan)[k].Put?
    requires q in Run(inp.live, OpsOf(plan)[..k])
    requires q != OpsOf(plan)[k].path && (q <= OpsOf(plan)[k].path || OpsOf(plan)[k].path <= q)
    ensures q in inp.live && q !in inp.base && q !in inp.remote
  {
    OpMeaning(plan, inp, k);
    assert OpsOf(plan)[k] == OpAt(plan, k);
    PrefixOfPlan(plan, inp, k);
    assert OpsOf(plan)[k].path in inp.remote;
    assert q !in inp.remote;
    assert q !in plan.conflicts;
    assert Get(Run(inp.live, OpsOf(plan)[..k]), q).Some?;
    if inp.Verdict(q).Delete? {
      var i := OpFor(plan, inp, q);
    }
  }

  /** A pull on an unborn branch adds exactly what the first-contact sync adds. */
  lemma UnbornPullIsSync(plan: ContentChanges, inp: Inputs)
    requires IsPlan(plan, inp) && inp.rule.CaseSensitive? && !inp.check && inp.base == map[]
    ensures plan.conflicts == [] && plan.deletes == []
    ensures forall p :: Get(Run(inp.live, OpsOf(plan)), p) == if p in inp.live then Get(inp.live, p) else Get(inp.remote, p)
  {
    WholePlan(plan, inp);
    SomeMember(plan.conflicts);
    SomeMember(plan.deletes);
  }
}

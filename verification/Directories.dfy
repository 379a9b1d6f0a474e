/**
 The directories of a live content target: what os.Remove with removeEmptyParents, and os.MkdirAll with
 os.WriteFile of internal/backup/tree.go do to them, and when a pull that was killed gets through later.

 A directory refuses a file of its name also when it is empty. Paths are relative to the target, whose own
 directory is the empty path and is always there.
 */
module Directories {
  import opened Common
  import opened GitTrees
  import opened DirTrees
  import opened PullPlan
  import opened Materialize

  datatype Live = Live(files: Files, dirs: set<Path>)

  function Front(p: Path): (r: Path)
    ensures p != [] ==> r < p && |r| == |p| - 1
  {
    if p == [] then [] else p[..|p| - 1]
  }

  /** The directories a file needs. */
  function Parents(p: Path): (r: set<Path>)
    ensures forall d :: d in r <==> d != [] && d < p
  {
    assert forall d | d != [] && d < p :: d == p[..|d|];
    set k | 0 < k < |p| :: p[..k]
  }

  /** Some file lies below the directory. */
  predicate HasFile(files: Files, d: Path)
  {
    exists p :: p in files && d < p
  }

  /** Files and directories fit together: what lies on the way to one is a directory. */
  ghost predicate Sound(l: Live)
  {
    && ClashFree(l.files)
    && (forall d :: d in l.dirs ==> d != [] && d !in l.files)
    && (forall p, d :: p in l.files && d != [] && d < p ==> d in l.dirs)
    && (forall e, d :: e in l.dirs && d != [] && d < e ==> d in l.dirs)
    && (forall p, e :: p in l.files && e in l.dirs ==> !(p < e))
  }

  /** os.ReadDir finds nothing in it. */
  predicate Empty(l: Live, d: Path)
  {
    !HasFile(l.files, d) && forall e :: e in l.dirs ==> !(d < e)
  }

  /** removeEmptyParents, from directory d upwards. */
  function Cleaned(l: Live, d: Path): (r: Live)
    ensures r.files == l.files && r.dirs <= l.dirs
    decreases |d|
  {
    if d == [] || d !in l.dirs || !Empty(l, d) then l else Cleaned(l.(dirs := l.dirs - {d}), Front(d))
  }

  /** One operation of a plan, with the directories it takes along or makes. */
  function LiveStep(l: Live, op: Op): (r: Live)
    ensures r.files == Step(l.files, op)
  {
    match op
    case Remove(p) => Cleaned(l.(files := l.files - {p}), Front(p))
    case Put(p, blob) => Live(l.files[p := blob], l.dirs + Parents(p))
  }

  function LiveRun(l: Live, ops: seq<Op>): (r: Live)
    ensures r.files == Run(l.files, ops)
  {
    if ops == [] then l else LiveStep(LiveRun(l, ops[..|ops| - 1]), ops[|ops| - 1])
  }

  /** A file cannot be written at p: it is a directory, or a file is where a directory is needed. */
  predicate Blocked(l: Live, p: Path)
  {
    p == [] || p in l.dirs || exists q :: q in l.files && q < p
  }

  /** No write of the run is refused. */
  ghost predicate GetsThrough(l: Live, ops: seq<Op>)
  {
    forall j :: 0 <= j < |ops| && ops[j].Put? ==> !Blocked(LiveRun(l, ops[..j]), ops[j].path)
  }

  /** d is one of the directories in strays, or one of them lies in it. */
  ghost predicate Leads(d: Path, strays: set<Path>)
  {
    exists c :: c in strays && d <= c
  }

  /** Every directory but the strays, and the ones they lie in, has a file below it. */
  ghost predicate TightBut(l: Live, strays: set<Path>)
  {
    strays <= l.dirs && forall d :: d in l.dirs ==> HasFile(l.files, d) || Leads(d, strays)
  }

  /** The strays hold no file, and no other directory is without files but the ones they lie in. */
  ghost predicate StrayAt(l: Live, strays: set<Path>)
  {
    TightBut(l, strays) && forall c :: c in strays ==> !HasFile(l.files, c)
  }

  /** The directories without a file below them. */
  ghost function Strays(l: Live): (r: set<Path>)
    ensures StrayAt(l, r)
  {
    var r := set c | c in l.dirs && !HasFile(l.files, c);
    assert forall d :: d in r ==> Leads(d, r);
    r
  }

  /** One more stray, unless it is the target's own directory. */
  function With(strays: set<Path>, d: Path): set<Path>
  {
    if d == [] then strays else strays + {d}
  }

  // ----- one step -----

  lemma PutKeepsSound(l: Live, p: Path, blob: Blob)
    requires Sound(l) && !Blocked(l, p)
    ensures Sound(LiveStep(l, Put(p, blob)))
  {
  }

  /** Cleaning keeps what is needed. */
  lemma {:induction false} CleanedKeepsSound(l: Live, d: Path)
    requires Sound(l)
    ensures Sound(Cleaned(l, d))
    decreases |d|
  {
    if d != [] && d in l.dirs && Empty(l, d) { CleanedKeepsSound(l.(dirs := l.dirs - {d}), Front(d)); }
  }

  lemma StepKeepsSound(l: Live, op: Op)
    requires Sound(l) && (op.Put? ==> !Blocked(l, op.path))
    ensures Sound(LiveStep(l, op))
  {
    if op.Put? {
      PutKeepsSound(l, op.path, op.blob);
    } else {
      CleanedKeepsSound(l.(files := l.files - {op.path}), Front(op.path));
    }
  }

  /** What refuses a file at p: a clash with a file, or a directory without one. */
  lemma BlockedIff(l: Live, strays: set<Path>, p: Path)
    requires Sound(l) && TightBut(l, strays)
    ensures Blocked(l, p) <==> p == [] || (exists q :: q in l.files && q != p && (q <= p || p <= q)) || Leads(p, strays)
  {
    if p != [] && Leads(p, strays) {
      var c :| c in strays && p <= c;
      assert p == c || p < c;
    }
    if q :| q in l.files && q != p && (q <= p || p <= q) {
      if p <= q { assert p < q; } else { assert q < p; }
    }
  }

  /** Cleaning upwards from the directory that lost its last file leaves no empty directory but the strays. */
  lemma {:induction false} CleanedTight(l: Live, strays: set<Path>, d: Path)
    requires Sound(l) && strays <= l.dirs && (forall c :: c in strays ==> !HasFile(l.files, c) && !(c <= d))
    requires forall e :: e in l.dirs ==> HasFile(l.files, e) || Leads(e, strays) || e <= d
    requires d != [] ==> d in l.dirs
    ensures StrayAt(Cleaned(l, d), strays)
    decreases |d|
  {
    if d != [] && Empty(l, d) {
      var after := l.(dirs := l.dirs - {d});
      forall e | e in after.dirs && e <= d
        ensures e <= Front(d)
      {
        assert |e| == |d| ==> e == d;
        assert e < d;
      }
      assert Front(d) != [] ==> Front(d) in after.dirs;
      assert forall c :: c in strays && c <= Front(d) ==> c <= d;
      CleanedTight(after, strays, Front(d));
    } else if d != [] && !HasFile(l.files, d) {
      var e :| e in l.dirs && d < e;
      assert Leads(e, strays);
      assert Leads(d, strays) by { var c :| c in strays && e <= c; assert d <= c; }
      forall f | f in l.dirs && f <= d
        ensures Leads(f, strays)
      {
        var c :| c in strays && d <= c;
        assert f <= c;
      }
    }
  }

  /** Deleting a file makes no new stray. */
  lemma RemoveStray(l: Live, strays: set<Path>, p: Path)
    requires Sound(l) && StrayAt(l, strays) && p in l.files
    ensures Sound(LiveStep(l, Remove(p))) && StrayAt(LiveStep(l, Remove(p)), strays)
  {
    var after := l.(files := l.files - {p});
    var d := Front(p);
    StepKeepsSound(l, Remove(p));
    forall e | e in after.dirs
      ensures HasFile(after.files, e) || Leads(e, strays) || e <= d
    {
      if HasFile(l.files, e) {
        var q :| q in l.files && e < q;
        if q == p { assert e <= d; } else { assert q in after.files; }
      }
    }
    assert d != [] ==> d < p && d in l.dirs;
    forall c | c in strays
      ensures !HasFile(after.files, c) && !(c <= d)
    {
      assert c <= d ==> c < p;
    }
    CleanedTight(after, strays, d);
  }

  lemma PutStray(l: Live, strays: set<Path>, p: Path, blob: Blob)
    requires Sound(l) && TightBut(l, strays) && !Blocked(l, p)
    ensures Sound(LiveStep(l, Put(p, blob))) && TightBut(LiveStep(l, Put(p, blob)), strays)
  {
    PutKeepsSound(l, p, blob);
    var after := LiveStep(l, Put(p, blob));
    forall e | e in after.dirs
      ensures HasFile(after.files, e) || Leads(e, strays)
    {
      if e in Parents(p) {
        assert p in after.files && e < p;
      } else if HasFile(l.files, e) {
        var q :| q in l.files && e < q;
        assert q in after.files;
      }
    }
  }

  // ----- deletes, then writes -----

  ghost predicate AllRemoves(ops: seq<Op>)
  {
    forall i :: 0 <= i < |ops| ==> ops[i].Remove?
  }

  ghost predicate AllPuts(ops: seq<Op>)
  {
    forall i :: 0 <= i < |ops| ==> ops[i].Put?
  }

  lemma {:induction false} LiveRunAppend(l: Live, a: seq<Op>, b: seq<Op>)
    ensures LiveRun(l, a + b) == LiveRun(LiveRun(l, a), b)
  {
    if b == [] {
      assert a + b == a;
    } else {
      assert (a + b)[..|a + b| - 1] == a + b[..|b| - 1];
      LiveRunAppend(l, a, b[..|b| - 1]);
    }
  }

  /** Deletes of files that are there make no new stray. */
  lemma {:induction false} RemovesStray(l: Live, strays: set<Path>, ops: seq<Op>)
    requires Sound(l) && StrayAt(l, strays) && AllRemoves(ops)
    requires forall i :: 0 <= i < |ops| ==> ops[i].path in l.files
    requires forall i, j :: 0 <= i < j < |ops| ==> ops[i].path != ops[j].path
    ensures Sound(LiveRun(l, ops)) && StrayAt(LiveRun(l, ops), strays)
  {
    if ops != [] {
      var front, last := ops[..|ops| - 1], ops[|ops| - 1];
      RemovesStray(l, strays, front);
      assert !Touches(front, last.path);
      RunLeavesOthers(l.files, front, last.path);
      assert Get(l.files, last.path).Some?;
      RemoveStray(LiveRun(l, front), strays, last.path);
    }
  }

  /** No operation is in the place of a stray or of a directory that one lies in. */
  ghost predicate NoneLeads(ops: seq<Op>, strays: set<Path>)
  {
    forall i :: 0 <= i < |ops| ==> !Leads(ops[i].path, strays)
  }

  lemma NoneLeadsLast(ops: seq<Op>, strays: set<Path>)
    requires ops != []
    ensures NoneLeads(ops, strays) <==> NoneLeads(ops[..|ops| - 1], strays) && !Leads(ops[|ops| - 1].path, strays)
  {
    assert forall i :: 0 <= i < |ops| - 1 ==> ops[i] == ops[..|ops| - 1][i];
  }

  /** Writes get through exactly if the files they end in do not clash and none is to replace a stray. */
  lemma {:induction false} WritesGetThroughIff(l: Live, strays: set<Path>, ops: seq<Op>)
    requires Sound(l) && TightBut(l, strays) && AllPuts(ops)
    ensures GetsThrough(l, ops) <==> ClashFree(Run(l.files, ops)) && NoneLeads(ops, strays)
    ensures GetsThrough(l, ops) ==> Sound(LiveRun(l, ops)) && TightBut(LiveRun(l, ops), strays)
  {
    if ops != [] {
      var front, last := ops[..|ops| - 1], ops[|ops| - 1];
      var mid := LiveRun(l, front);
      WritesGetThroughIff(l, strays, front);
      LastWrite(l, ops);
      NoneLeadsLast(ops, strays);
      if GetsThrough(l, front) {
        OneWriteIff(mid, strays, last.path, last.blob);
      } else if ClashFree(Step(mid.files, last)) {
        FewerFilesClashLess(mid.files, last);
      }
    }
  }

  lemma OneWriteIff(l: Live, strays: set<Path>, p: Path, blob: Blob)
    requires Sound(l) && TightBut(l, strays)
    ensures !Blocked(l, p) <==> ClashFree(l.files[p := blob]) && !Leads(p, strays)
    ensures !Blocked(l, p) ==> Sound(LiveStep(l, Put(p, blob))) && TightBut(LiveStep(l, Put(p, blob)), strays)
  {
    BlockedIff(l, strays, p);
    ClashFreeIff(l.files, p, blob);
    if !Blocked(l, p) { PutStray(l, strays, p, blob); }
  }

  lemma FewerFilesClashLess(files: Files, op: Op)
    requires op.Put? && ClashFree(Step(files, op))
    ensures ClashFree(files)
  {
    var after := Step(files, op);
    assert forall p :: p in files ==> p in after;
  }

  /** A run gets through if its front does and its last write is not refused. */
  lemma LastWrite(l: Live, ops: seq<Op>)
    requires ops != []
    ensures
      var n := |ops| - 1;
      GetsThrough(l, ops) <==> GetsThrough(l, ops[..n]) && (ops[n].Put? ==> !Blocked(LiveRun(l, ops[..n]), ops[n].path))
  {
    var n := |ops| - 1;
    forall j | 0 <= j < n
      ensures ops[..n][..j] == ops[..j] && ops[..n][j] == ops[j]
    {
    }
  }

  lemma ClashFreeIff(files: Files, p: Path, blob: Blob)
    requires ClashFree(files)
    ensures ClashFree(files[p := blob]) <==> p != [] && !exists q :: q in files && q != p && (q <= p || p <= q)
  {
    var after := files[p := blob];
    if q :| q in files && q != p && (q <= p || p <= q) {
      assert q in after && p in after;
    }
  }

  /** LastWrite for a run and one more operation. */
  lemma OneMore(l: Live, ops: seq<Op>, op: Op)
    ensures GetsThrough(l, ops + [op]) <==> GetsThrough(l, ops) && (op.Put? ==> !Blocked(LiveRun(l, ops), op.path))
  {
    LastWrite(l, ops + [op]);
    assert (ops + [op])[..|ops + [op]| - 1] == ops;
  }

  lemma {:induction false} RemovesNeverRefused(l: Live, a: seq<Op>, b: seq<Op>)
    requires AllRemoves(a)
    ensures GetsThrough(l, a + b) <==> GetsThrough(LiveRun(l, a), b)
  {
    if b == [] {
      assert a + b == a;
    } else {
      var front, last := b[..|b| - 1], b[|b| - 1];
      assert b == front + [last] && a + b == (a + front) + [last];
      OneMore(l, a + front, last);
      OneMore(LiveRun(l, a), front, last);
      LiveRunAppend(l, a, front);
      RemovesNeverRefused(l, a, front);
    }
  }

  // ----- plans -----

  function Deletes(plan: ContentChanges): seq<Op>
  {
    OpsOf(plan)[..|plan.deletes|]
  }

  function Writes(plan: ContentChanges): seq<Op>
  {
    OpsOf(plan)[|plan.deletes|..]
  }

  lemma PlanParts(plan: ContentChanges)
    ensures OpsOf(plan) == Deletes(plan) + Writes(plan) && AllRemoves(Deletes(plan)) && AllPuts(Writes(plan))
    ensures forall i :: 0 <= i < |plan.deletes| ==> Deletes(plan)[i] == Remove(plan.deletes[i])
    ensures forall i :: 0 <= i < |plan.writes| ==> Writes(plan)[i] == Put(plan.writes[i].rel, plan.writes[i].blob)
  {
    forall i | 0 <= i < |plan.deletes|
      ensures Deletes(plan)[i] == Remove(plan.deletes[i])
    {
      assert OpsOf(plan)[i] == OpAt(plan, i);
    }
    forall i | 0 <= i < |plan.writes|
      ensures Writes(plan)[i] == Put(plan.writes[i].rel, plan.writes[i].blob)
    {
      assert OpsOf(plan)[|plan.deletes| + i] == OpAt(plan, |plan.deletes| + i);
    }
  }

  /** A plan only deletes files that are there, each once. */
  lemma DeletesAreThere(plan: ContentChanges, inp: Inputs)
    requires IsPlan(plan, inp) && inp.rule.CaseSensitive?
    ensures forall i :: 0 <= i < |plan.deletes| ==> plan.deletes[i] in inp.live
    ensures forall i, j :: 0 <= i < j < |plan.deletes| ==> plan.deletes[i] != plan.deletes[j]
  {
    forall i | 0 <= i < |plan.deletes|
      ensures plan.deletes[i] in inp.live
    {
      assert plan.deletes[i] in plan.deletes;
      assert inp.Verdict(plan.deletes[i]) == Delete;
    }
  }

  /** Some deletes of a plan. */
  lemma SomeDeletes(l: Live, strays: set<Path>, plan: ContentChanges, inp: Inputs, k: nat)
    requires Sound(l) && StrayAt(l, strays) && IsPlan(plan, inp) && inp.rule.CaseSensitive? && inp.live == l.files
    requires k <= |plan.deletes|
    ensures Sound(LiveRun(l, OpsOf(plan)[..k])) && StrayAt(LiveRun(l, OpsOf(plan)[..k]), strays)
  {
    PlanParts(plan);
    DeletesAreThere(plan, inp);
    var ops := OpsOf(plan)[..k];
    forall i | 0 <= i < k
      ensures ops[i] == Remove(plan.deletes[i])
    {
      assert ops[i] == Deletes(plan)[i];
    }
    RemovesStray(l, strays, ops);
  }

  /** No write of the plan is in the place of a stray or of a directory that one lies in. */
  ghost predicate WritesClear(plan: ContentChanges, strays: set<Path>)
  {
    forall w :: w in plan.writes ==> !Leads(w.rel, strays)
  }

  lemma PlanWithStrays(l: Live, strays: set<Path>, plan: ContentChanges, inp: Inputs)
    requires Sound(l) && StrayAt(l, strays) && IsPlan(plan, inp) && inp.rule.CaseSensitive? && inp.live == l.files
    ensures GetsThrough(l, OpsOf(plan)) <==> ClashFree(Run(l.files, OpsOf(plan))) && WritesClear(plan, strays)
    ensures GetsThrough(l, OpsOf(plan)) ==> Sound(LiveRun(l, OpsOf(plan))) && TightBut(LiveRun(l, OpsOf(plan)), strays)
  {
    PlanParts(plan);
    SomeDeletes(l, strays, plan, inp, |plan.deletes|);
    RemovesNeverRefused(l, Deletes(plan), Writes(plan));
    LiveRunAppend(l, Deletes(plan), Writes(plan));
    WritesGetThroughIff(LiveRun(l, Deletes(plan)), strays, Writes(plan));
    WritesNoneLeads(plan, strays);
  }

  lemma WritesNoneLeads(plan: ContentChanges, strays: set<Path>)
    ensures NoneLeads(Writes(plan), strays) <==> WritesClear(plan, strays)
  {
    PlanParts(plan);
    if NoneLeads(Writes(plan), strays) {
      forall w | w in plan.writes
        ensures !Leads(w.rel, strays)
      {
        var i :| 0 <= i < |plan.writes| && plan.writes[i] == w;
        assert Writes(plan)[i].path == w.rel;
      }
    } else {
      var i :| 0 <= i < |Writes(plan)| && Leads(Writes(plan)[i].path, strays);
      assert plan.writes[i] in plan.writes;
    }
  }

  /**
   A plan gets through exactly if the files it ends in do not clash and it does not write a file in the
   place of a directory that holds no file, or that such a one lies in.
   */
  lemma PlanGetsThroughIff(l: Live, plan: ContentChanges, inp: Inputs)
    requires Sound(l) && IsPlan(plan, inp) && inp.rule.CaseSensitive? && inp.live == l.files
    ensures GetsThrough(l, OpsOf(plan)) <==>
              && ClashFree(Run(l.files, OpsOf(plan)))
              && forall w, c :: w in plan.writes && c in l.dirs && w.rel <= c ==> HasFile(l.files, c)
  {
    PlanWithStrays(l, Strays(l), plan, inp);
    forall w | w in plan.writes
      ensures Leads(w.rel, Strays(l)) <==> exists c :: c in l.dirs && w.rel <= c && !HasFile(l.files, c)
    {
      if c :| c in l.dirs && w.rel <= c && !HasFile(l.files, c) {
        assert Leads(c, Strays(l));
        var e :| e in Strays(l) && c <= e;
        assert w.rel <= e;
      }
    }
  }

  /** No plan that gets through writes the target's own directory. */
  lemma WritesArePaths(l: Live, plan: ContentChanges, inp: Inputs, w: PlannedWrite)
    requires IsPlan(plan, inp) && inp.live == l.files && ClashFree(Run(l.files, OpsOf(plan))) && w in plan.writes
    ensures w.rel != []
  {
    WholePlan(plan, inp);
    assert inp.Verdict(w.rel) == Write(w.blob);
    assert Get(Run(l.files, OpsOf(plan)), w.rel) == Some(w.blob);
  }

  /** Part of a run that gets through. */
  lemma {:induction false} PartOfRun(l: Live, plan: ContentChanges, inp: Inputs, k: nat)
    requires Sound(l) && IsPlan(plan, inp) && inp.rule.CaseSensitive? && inp.live == l.files
    requires GetsThrough(l, OpsOf(plan)) && k <= |OpsOf(plan)|
    ensures Sound(LiveRun(l, OpsOf(plan)[..k])) && TightBut(LiveRun(l, OpsOf(plan)[..k]), Strays(l))
  {
    if k <= |plan.deletes| {
      SomeDeletes(l, Strays(l), plan, inp, k);
    } else {
      PartOfRun(l, plan, inp, k - 1);
      var ops := OpsOf(plan);
      assert ops[..k][..k - 1] == ops[..k - 1] && ops[k - 1] == OpAt(plan, k - 1);
      PutStray(LiveRun(l, ops[..k - 1]), Strays(l), ops[k - 1].path, ops[k - 1].blob);
    }
  }

  // ----- kills -----

  /** Where strays were filled or stayed, what leads to one now led to one before. */
  lemma FewerStrays(l: Live, strays: set<Path>, plan: ContentChanges, plan': ContentChanges)
    requires TightBut(l, strays) && WritesClear(plan, strays)
    requires forall w :: w in plan'.writes ==> w in plan.writes
    ensures WritesClear(plan', Strays(l))
  {
    forall c, d | c in Strays(l) && d <= c
      ensures Leads(d, strays)
    {
      assert Leads(c, strays);
    }
  }

  /** A new plan made after part of the old one writes nothing the old one did not. */
  lemma NoNewWrites(plan: ContentChanges, inp: Inputs, k: nat, plan': ContentChanges, inp': Inputs)
    requires IsPlan(plan, inp) && inp.rule.CaseSensitive? && k <= |OpsOf(plan)| && plan.conflicts == []
    requires inp' == inp.(live := Run(inp.live, OpsOf(plan)[..k])) && IsPlan(plan', inp')
    ensures forall w :: w in plan'.writes ==> w in plan.writes
  {
    PrefixOfPlan(plan, inp, k);
    forall w | w in plan'.writes
      ensures w in plan.writes
    {
      assert inp'.Verdict(w.rel) == Write(w.blob);
      assert w.rel !in plan.conflicts;
      assert Get(inp'.live, w.rel) == Get(inp.live, w.rel) || Get(inp'.live, w.rel) == Resolved(inp, w.rel);
    }
  }

  /** Killed between two operations, the next pull gets through as the uninterrupted one would have. */
  lemma KilledBetweenGetsThrough(l: Live, plan: ContentChanges, inp: Inputs, k: nat, plan': ContentChanges, inp': Inputs)
    requires Sound(l) && IsPlan(plan, inp) && inp.rule.CaseSensitive? && inp.live == l.files
    requires plan.conflicts == [] && GetsThrough(l, OpsOf(plan)) && k <= |OpsOf(plan)|
    requires inp' == inp.(live := LiveRun(l, OpsOf(plan)[..k]).files) && IsPlan(plan', inp')
    ensures
      var s := LiveRun(l, OpsOf(plan)[..k]);
      plan'.conflicts == [] && GetsThrough(s, OpsOf(plan')) && LiveRun(s, OpsOf(plan')).files == LiveRun(l, OpsOf(plan)).files
  {
    var s := LiveRun(l, OpsOf(plan)[..k]);
    PartOfRun(l, plan, inp, k);
    InterruptedPullConverges(plan, inp, k, plan', inp');
    PlanWithStrays(l, Strays(l), plan, inp);
    NoNewWrites(plan, inp, k, plan', inp');
    FewerStrays(s, Strays(l), plan, plan');
    PlanWithStrays(s, Strays(s), plan', inp');
  }

  /** removeEmptyParents from directory d upwards, killed after it has removed at most n directories. */
  function PartlyCleaned(l: Live, d: Path, n: nat): (r: Live)
    ensures r.files == l.files && r.dirs <= l.dirs
    decreases n
  {
    if n == 0 || d == [] || d !in l.dirs || !Empty(l, d) then l else PartlyCleaned(l.(dirs := l.dirs - {d}), Front(d), n - 1)
  }

  /** The directory it would have looked at next. */
  function NextToClean(l: Live, d: Path, n: nat): (r: Path)
    ensures r <= d
    decreases n
  {
    if n == 0 || d == [] || d !in l.dirs || !Empty(l, d) then d
    else
      var r := NextToClean(l.(dirs := l.dirs - {d}), Front(d), n - 1);
      assert r <= Front(d) <= d;
      r
  }

  /** Not killed before its end, it is the whole clean-up. */
  lemma {:induction false} CleanedInTheEnd(l: Live, d: Path, n: nat)
    requires n >= |d|
    ensures PartlyCleaned(l, d, n) == Cleaned(l, d)
    decreases n
  {
    if d != [] && d in l.dirs && Empty(l, d) { CleanedInTheEnd(l.(dirs := l.dirs - {d}), Front(d), n - 1); }
  }

  /** The disk when the k-th file has been removed and nothing cleaned up behind it. */
  function JustRemoved(l: Live, plan: ContentChanges, k: nat): (r: Live)
    requires k < |plan.deletes|
    ensures r.files == Run(l.files, OpsOf(plan)[..k + 1])
  {
    var before := LiveRun(l, OpsOf(plan)[..k]);
    RunNext(l.files, plan, k);
    before.(files := before.files - {plan.deletes[k]})
  }

  /** Deleting the k-th file was killed behind os.Remove, after removeEmptyParents had removed n directories. */
  function HalfDeleted(l: Live, plan: ContentChanges, k: nat, n: nat): (r: Live)
    requires k < |plan.deletes|
    ensures r.files == Run(l.files, OpsOf(plan)[..k + 1])
  {
    PartlyCleaned(JustRemoved(l, plan, k), Front(plan.deletes[k]), n)
  }

  /** The directory the kill has left for later. */
  function LeftOver(l: Live, plan: ContentChanges, k: nat, n: nat): Path
    requires k < |plan.deletes|
  {
    NextToClean(JustRemoved(l, plan, k), Front(plan.deletes[k]), n)
  }

  /** No directory is without files but the strays, what they lie in, and what d lies in. */
  ghost predicate StrayUpTo(l: Live, strays: set<Path>, d: Path)
  {
    && strays <= l.dirs && (forall c :: c in strays ==> !HasFile(l.files, c)) && (d != [] ==> d in l.dirs)
    && forall e :: e in l.dirs ==> HasFile(l.files, e) || Leads(e, strays) || e <= d
  }

  /** d lies in none of the strays and is none of them. */
  ghost predicate OutsideAll(strays: set<Path>, d: Path)
  {
    forall c :: c in strays ==> !(c <= d)
  }

  lemma OneCleaned(l: Live, strays: set<Path>, d: Path)
    requires Sound(l) && d != [] && Empty(l, d) && StrayUpTo(l, strays, d) && OutsideAll(strays, d)
    ensures Sound(l.(dirs := l.dirs - {d})) && StrayUpTo(l.(dirs := l.dirs - {d}), strays, Front(d)) && OutsideAll(strays, Front(d))
  {
    assert d <= d && Front(d) <= d;
    forall c | c in strays
      ensures !(c <= Front(d)) && c != d
    {
      assert c <= Front(d) ==> c <= d;
    }
    var after := l.(dirs := l.dirs - {d});
    forall e | e in after.dirs && e <= d
      ensures e <= Front(d)
    {
      assert |e| == |d| ==> e == d;
      assert e < d;
    }
    assert Front(d) != [] ==> Front(d) < d;
  }

  /** What each removal of an empty directory keeps, the clean-up keeps however far it comes. */
  lemma {:induction false} CleaningKeeps(good: (Live, Path) -> bool, l: Live, d: Path, n: nat)
    requires good(l, d)
    requires forall m, e :: good(m, e) && e != [] && e in m.dirs && Empty(m, e) ==> good(m.(dirs := m.dirs - {e}), Front(e))
    ensures good(PartlyCleaned(l, d, n), NextToClean(l, d, n))
    decreases n
  {
    if n > 0 && d != [] && d in l.dirs && Empty(l, d) {
      CleaningKeeps(good, l.(dirs := l.dirs - {d}), Front(d), n - 1);
    }
  }

  /** However far the clean-up came, only the directory it would look at next may be one more stray. */
  lemma PartlyCleanedStray(l: Live, strays: set<Path>, d: Path, n: nat)
    requires Sound(l) && StrayUpTo(l, strays, d) && OutsideAll(strays, d)
    ensures Sound(PartlyCleaned(l, d, n)) && StrayUpTo(PartlyCleaned(l, d, n), strays, NextToClean(l, d, n))
  {
    var good := (m: Live, e: Path) => Sound(m) && StrayUpTo(m, strays, e) && OutsideAll(strays, e);
    forall m, e | good(m, e) && e != [] && e in m.dirs && Empty(m, e)
      ensures good(m.(dirs := m.dirs - {e}), Front(e))
    {
      OneCleaned(m, strays, e);
    }
    CleaningKeeps(good, l, d, n);
    assert good(PartlyCleaned(l, d, n), NextToClean(l, d, n));
  }

  lemma BelowIsBelow(files: Files, e: Path, d: Path)
    requires e <= d && e != []
    ensures HasFile(files, d) ==> HasFile(files, e)
    ensures d != []
  {
    if q :| q in files && d < q { assert e < q; }
  }

  lemma StrayUpToOne(l: Live, strays: set<Path>, d: Path)
    requires Sound(l) && StrayUpTo(l, strays, d)
    ensures StrayAt(l, if HasFile(l.files, d) then strays else With(strays, d))
  {
    var now := if HasFile(l.files, d) then strays else With(strays, d);
    forall e | e in l.dirs
      ensures HasFile(l.files, e) || Leads(e, now)
    {
      if Leads(e, strays) {
        var c :| c in strays && e <= c;
        assert c in now;
      } else if !HasFile(l.files, e) {
        BelowIsBelow(l.files, e, d);
        assert d in now;
      }
    }
  }

  /** Writes clear of some strays are clear of one more exactly if none is in its place or leads to it. */
  lemma ClearOfOneMore(plan: ContentChanges, plan': ContentChanges, strays: set<Path>, d: Path)
    requires WritesClear(plan, strays) && (forall w :: w in plan.writes <==> w in plan'.writes)
    requires forall w :: w in plan.writes ==> w.rel != []
    ensures WritesClear(plan', strays)
    ensures WritesClear(plan', With(strays, d)) <==> forall w :: w in plan.writes ==> !(w.rel <= d)
  {
    forall w | w in plan.writes
      ensures Leads(w.rel, With(strays, d)) <==> w.rel <= d
    {
      assert w.rel <= d ==> d in With(strays, d);
      assert !Leads(w.rel, strays);
    }
  }

  /** The same writes remain after some deletes. */
  lemma WritesRemain(plan: ContentChanges, inp: Inputs, k: nat, plan': ContentChanges, inp': Inputs)
    requires IsPlan(plan, inp) && inp.rule.CaseSensitive? && k <= |plan.deletes|
    requires inp' == inp.(live := Run(inp.live, OpsOf(plan)[..k])) && IsPlan(plan', inp')
    ensures forall w :: w in plan.writes <==> w in plan'.writes
  {
    PrefixOfPlan(plan, inp, k);
    forall w: PlannedWrite
      ensures w in plan.writes <==> w in plan'.writes
    {
      if Touches(OpsOf(plan)[..k], w.rel) {
        var i :| 0 <= i < k && OpsOf(plan)[..k][i].path == w.rel;
        OpMeaning(plan, inp, i);
        assert Get(inp'.live, w.rel) == None == Get(inp.remote, w.rel);
      } else {
        assert Get(inp'.live, w.rel) == Get(inp.live, w.rel);
      }
    }
  }

  /** Before the clean-up, only the directories the removed file was in may have lost their last file. */
  lemma RemovedUpTo(l: Live, strays: set<Path>, p: Path)
    requires Sound(l) && StrayAt(l, strays) && p in l.files
    ensures
      var after := l.(files := l.files - {p});
      Sound(after) && StrayUpTo(after, strays, Front(p)) && OutsideAll(strays, Front(p))
  {
    var after := l.(files := l.files - {p});
    assert Front(p) != [] ==> Front(p) < p;
    forall e | e in after.dirs && HasFile(l.files, e)
      ensures HasFile(after.files, e) || e <= Front(p)
    {
      var q :| q in l.files && e < q;
      assert q != p ==> q in after.files;
    }
    forall c | c in strays
      ensures !(c <= Front(p)) && !HasFile(after.files, c)
    {
      assert c != [] && (c <= Front(p) ==> c < p);
    }
  }

  /** The disk and its strays after such a kill. */
  lemma HalfDeletedStray(l: Live, plan: ContentChanges, inp: Inputs, k: nat, n: nat)
    requires Sound(l) && IsPlan(plan, inp) && inp.rule.CaseSensitive? && inp.live == l.files && k < |plan.deletes|
    ensures
      var s, d := HalfDeleted(l, plan, k, n), LeftOver(l, plan, k, n);
      Sound(s) && (d != [] ==> d in s.dirs) && StrayAt(s, if HasFile(s.files, d) then Strays(l) else With(Strays(l), d))
  {
    var p, strays, before := plan.deletes[k], Strays(l), LiveRun(l, OpsOf(plan)[..k]);
    SomeDeletes(l, strays, plan, inp, k);
    DeleteComesNext(l, plan, inp, k);
    RemovedUpTo(before, strays, p);
    PartlyCleanedStray(JustRemoved(l, plan, k), strays, Front(p), n);
    StrayUpToOne(HalfDeleted(l, plan, k, n), strays, LeftOver(l, plan, k, n));
  }

  /**
   Killed in the clean-up behind a removal, before any directory went or after some did, the next pull
   finds no conflict. It gets through exactly if the directory the clean-up would have looked at next has a
   file in it, or no write is to put a file in the place of that directory or of one it lies in.
   */
  lemma KilledCleanUpGetsThroughIff(l: Live, plan: ContentChanges, inp: Inputs, k: nat, n: nat, plan': ContentChanges, inp': Inputs)
    requires Sound(l) && IsPlan(plan, inp) && inp.rule.CaseSensitive? && inp.live == l.files
    requires plan.conflicts == [] && GetsThrough(l, OpsOf(plan)) && k < |plan.deletes|
    requires inp' == inp.(live := HalfDeleted(l, plan, k, n).files) && IsPlan(plan', inp')
    ensures plan'.conflicts == []
    ensures
      var s, d := HalfDeleted(l, plan, k, n), LeftOver(l, plan, k, n);
      GetsThrough(s, OpsOf(plan')) <==> HasFile(s.files, d) || forall w :: w in plan.writes ==> !(w.rel <= d)
    ensures LiveRun(HalfDeleted(l, plan, k, n), OpsOf(plan')).files == LiveRun(l, OpsOf(plan)).files
  {
    var s, d, strays := HalfDeleted(l, plan, k, n), LeftOver(l, plan, k, n), Strays(l);
    HalfDeletedStray(l, plan, inp, k, n);
    InterruptedPullConverges(plan, inp, k + 1, plan', inp');
    WritesRemain(plan, inp, k + 1, plan', inp');
    PlanWithStrays(l, strays, plan, inp);
    PlanWithStrays(s, if HasFile(s.files, d) then strays else With(strays, d), plan', inp');
    forall w | w in plan.writes
      ensures w.rel != []
    {
      WritesArePaths(l, plan, inp, w);
    }
    ClearOfOneMore(plan, plan', strays, d);
  }

  lemma DeleteComesNext(l: Live, plan: ContentChanges, inp: Inputs, k: nat)
    requires IsPlan(plan, inp) && inp.rule.CaseSensitive? && inp.live == l.files && k < |plan.deletes|
    ensures plan.deletes[k] in LiveRun(l, OpsOf(plan)[..k]).files
  {
    PlanParts(plan);
    DeletesAreThere(plan, inp);
    var ops, p := OpsOf(plan)[..k], plan.deletes[k];
    assert forall i :: 0 <= i < k ==> ops[i] == Deletes(plan)[i] && ops[i].path == plan.deletes[i] != p;
    RunLeavesOthers(l.files, ops, p);
    assert Get(l.files, p).Some?;
  }

  /** Once all deletes are done, a new plan has none. */
  lemma NoDeletesRemain(plan: ContentChanges, inp: Inputs, k: nat, plan': ContentChanges, inp': Inputs)
    requires IsPlan(plan, inp) && inp.rule.CaseSensitive? && |plan.deletes| <= k <= |OpsOf(plan)|
    requires inp' == inp.(live := Run(inp.live, OpsOf(plan)[..k])) && IsPlan(plan', inp')
    ensures plan'.deletes == []
  {
    PrefixOfPlan(plan, inp, k);
    forall p
      ensures inp'.Verdict(p) != Delete
    {
      assert Get(inp'.live, p) == Get(inp.live, p) || Get(inp'.live, p) == Resolved(inp, p);
      if inp.Verdict(p) == Delete {
        var i := OpFor(plan, inp, p);
        assert OpsOf(plan)[..k][i].path == p;
        assert Get(inp'.live, p) == None;
      }
    }
    SomeMember(plan'.deletes);
  }

  /** The first directories of a write that is not refused may be made before it. */
  lemma MkdirStray(l: Live, strays: set<Path>, p: Path, j: nat)
    requires Sound(l) && TightBut(l, strays) && !Blocked(l, p) && j <= |p|
    ensures
      var s := l.(dirs := l.dirs + Parents(p[..j]));
      Sound(s) && TightBut(s, With(strays, Front(p[..j])))
  {
    var q := p[..j];
    var s := l.(dirs := l.dirs + Parents(q));
    var now := With(strays, Front(q));
    assert q <= p;
    assert Front(q) != [] ==> Front(q) in Parents(q);
    forall e | e in s.dirs
      ensures HasFile(s.files, e) || Leads(e, now)
    {
      if e in Parents(q) {
        assert e <= Front(q) && Front(q) in now;
      } else if !HasFile(l.files, e) {
        var c :| c in strays && e <= c;
        assert c in now;
      }
    }
    forall f, e | f in s.files && e in s.dirs
      ensures !(f < e)
    {
      assert f < e && e < q ==> f < p;
    }
    forall d | d in s.dirs
      ensures d != [] && d !in s.files
    {
      assert d in Parents(q) ==> d < p;
    }
  }

  lemma NoneLeadsToOneMore(ops: seq<Op>, strays: set<Path>, d: Path)
    requires NoneLeads(ops, strays) && forall i :: 0 <= i < |ops| ==> !(ops[i].path <= d)
    ensures NoneLeads(ops, With(strays, d))
  {
    forall i | 0 <= i < |ops|
      ensures !Leads(ops[i].path, With(strays, d))
    {
      assert !Leads(ops[i].path, strays);
    }
  }

  /** The k-th operation, a write, was killed in os.MkdirAll, or behind it, with directories down to j - 1 names made. */
  function DirsMade(l: Live, plan: ContentChanges, k: nat, j: nat): Live
    requires k < |OpsOf(plan)| && j <= |OpsOf(plan)[k].path|
  {
    var mid := LiveRun(l, OpsOf(plan)[..k]);
    mid.(dirs := mid.dirs + Parents(OpsOf(plan)[k].path[..j]))
  }

  lemma DirsMadeStray(l: Live, plan: ContentChanges, inp: Inputs, k: nat, j: nat)
    requires Sound(l) && IsPlan(plan, inp) && inp.rule.CaseSensitive? && inp.live == l.files
    requires GetsThrough(l, OpsOf(plan)) && |plan.deletes| <= k < |OpsOf(plan)| && j <= |OpsOf(plan)[k].path|
    ensures Sound(DirsMade(l, plan, k, j)) && TightBut(DirsMade(l, plan, k, j), With(Strays(l), Front(OpsOf(plan)[k].path[..j])))
  {
    assert OpsOf(plan)[k] == OpAt(plan, k);
    PartOfRun(l, plan, inp, k);
    MkdirStray(LiveRun(l, OpsOf(plan)[..k]), Strays(l), OpsOf(plan)[k].path, j);
  }

  lemma OnlyClearWrites(plan: ContentChanges, strays: set<Path>)
    requires plan.deletes == [] && WritesClear(plan, strays)
    ensures AllPuts(OpsOf(plan)) && NoneLeads(OpsOf(plan), strays)
  {
    PlanParts(plan);
    assert Writes(plan) == OpsOf(plan);
    WritesNoneLeads(plan, strays);
  }

  /** The writes that are left then meet no stray. */
  lemma DirsMadeClear(l: Live, plan: ContentChanges, inp: Inputs, k: nat, j: nat, plan': ContentChanges, inp': Inputs)
    requires Sound(l) && IsPlan(plan, inp) && inp.rule.CaseSensitive? && inp.live == l.files
    requires plan.conflicts == [] && GetsThrough(l, OpsOf(plan)) && |plan.deletes| <= k < |OpsOf(plan)| && j <= |OpsOf(plan)[k].path|
    requires inp' == inp.(live := LiveRun(l, OpsOf(plan)[..k]).files) && IsPlan(plan', inp')
    ensures plan'.conflicts == [] && Run(inp'.live, OpsOf(plan')) == Run(inp.live, OpsOf(plan)) && ClashFree(Run(inp.live, OpsOf(plan)))
    ensures AllPuts(OpsOf(plan')) && NoneLeads(OpsOf(plan'), With(Strays(l), Front(OpsOf(plan)[k].path[..j])))
  {
    var d := Front(OpsOf(plan)[k].path[..j]);
    PlanWithStrays(l, Strays(l), plan, inp);
    InterruptedPullConverges(plan, inp, k, plan', inp');
    NoDeletesRemain(plan, inp, k, plan', inp');
    NoNewWrites(plan, inp, k, plan', inp');
    OnlyClearWrites(plan', Strays(l));
    NothingAboveWritten(plan, inp, k, plan', inp');
    FrontOfPart(OpsOf(plan)[k].path, j);
    NoneLeadsToOneMore(OpsOf(plan'), Strays(l), d);
  }

  lemma FrontOfPart(p: Path, j: nat)
    requires j <= |p|
    ensures Front(p[..j]) <= Front(p)
  {
  }

  /** Killed in a write before, while or after its directories were made, the next pull gets through. */
  lemma KilledMkdirGetsThrough(l: Live, plan: ContentChanges, inp: Inputs, k: nat, j: nat, plan': ContentChanges, inp': Inputs)
    requires Sound(l) && IsPlan(plan, inp) && inp.rule.CaseSensitive? && inp.live == l.files
    requires plan.conflicts == [] && GetsThrough(l, OpsOf(plan)) && |plan.deletes| <= k < |OpsOf(plan)| && j <= |OpsOf(plan)[k].path|
    requires inp' == inp.(live := DirsMade(l, plan, k, j).files) && IsPlan(plan', inp')
    ensures plan'.conflicts == [] && GetsThrough(DirsMade(l, plan, k, j), OpsOf(plan'))
    ensures LiveRun(DirsMade(l, plan, k, j), OpsOf(plan')).files == LiveRun(l, OpsOf(plan)).files
  {
    DirsMadeStray(l, plan, inp, k, j);
    DirsMadeClear(l, plan, inp, k, j, plan', inp');
    WritesGetThroughIff(DirsMade(l, plan, k, j), With(Strays(l), Front(OpsOf(plan)[k].path[..j])), OpsOf(plan'));
  }

  /** No write replaces a directory another write needs, when the files in the end do not clash. */
  lemma NothingAboveWritten(plan: ContentChanges, inp: Inputs, k: nat, plan': ContentChanges, inp': Inputs)
    requires IsPlan(plan, inp) && IsPlan(plan', inp') && |plan.deletes| <= k < |OpsOf(plan)| && plan'.deletes == []
    requires ClashFree(Run(inp.live, OpsOf(plan))) && Run(inp'.live, OpsOf(plan')) == Run(inp.live, OpsOf(plan))
    ensures forall i :: 0 <= i < |OpsOf(plan')| ==> !(OpsOf(plan')[i].path <= Front(OpsOf(plan)[k].path))
  {
    var p, after := OpsOf(plan)[k].path, Run(inp.live, OpsOf(plan));
    WholePlan(plan, inp);
    WholePlan(plan', inp');
    OpMeaning(plan, inp, k);
    assert Get(after, p).Some?;
    forall i | 0 <= i < |OpsOf(plan')|
      ensures !(OpsOf(plan')[i].path <= Front(p))
    {
      OpMeaning(plan', inp', i);
      var w := OpsOf(plan')[i].path;
      assert Get(after, w).Some?;
      assert w <= Front(p) ==> w <= p && w != p;
    }
  }

  // ----- a pull that never gets through -----

  /** The pull is stuck at w: a stranded directory c is in its place, or lies in it, and w is still to be written. */
  ghost predicate StuckAt(l: Live, inp: Inputs, c: Path, w: Path)
  {
    && Sound(l) && c in l.dirs && !HasFile(l.files, c) && w <= c && w != []
    && inp.live == l.files && inp.rule.CaseSensitive? && inp.Verdict(w).Write?
  }

  lemma StuckIsBlocked(l: Live, inp: Inputs, c: Path, w: Path)
    requires StuckAt(l, inp, c, w)
    ensures Blocked(l, w)
  {
    assert w == c || w < c;
  }

  lemma {:induction false} CleanedKeeps(l: Live, d: Path, c: Path)
    requires !(c <= d)
    ensures c in l.dirs ==> c in Cleaned(l, d).dirs
    decreases |d|
  {
    if d != [] && d in l.dirs && Empty(l, d) { CleanedKeeps(l.(dirs := l.dirs - {d}), Front(d), c); }
  }

  /** An operation outside c leaves it stranded. */
  lemma StrandedStep(l: Live, c: Path, op: Op)
    requires Sound(l) && c in l.dirs && !HasFile(l.files, c)
    requires if op.Put? then !Blocked(l, op.path) && !(c < op.path) else op.path in l.files
    ensures Sound(LiveStep(l, op)) && c in LiveStep(l, op).dirs && !HasFile(LiveStep(l, op).files, c)
  {
    StepKeepsSound(l, op);
    var after := LiveStep(l, op);
    assert forall p :: p in after.files ==> p in l.files || (op.Put? && p == op.path);
    if op.Remove? {
      assert c <= Front(op.path) && op.path != [] ==> c < op.path;
      CleanedKeeps(l.(files := l.files - {op.path}), Front(op.path), c);
    }
  }

  /** However far a retry comes, c stays stranded and w is not written. */
  lemma {:induction false} StrandedSoFar(l: Live, inp: Inputs, c: Path, w: Path, plan: ContentChanges, j: nat)
    requires StuckAt(l, inp, c, w) && IsPlan(plan, inp) && ClashFree(inp.remote)
    requires j <= |OpsOf(plan)| && GetsThrough(l, OpsOf(plan)[..j])
    ensures
      var now := LiveRun(l, OpsOf(plan)[..j]);
      Sound(now) && c in now.dirs && !HasFile(now.files, c) && !Touches(OpsOf(plan)[..j], w)
  {
    if j > 0 {
      var ops, op := OpsOf(plan)[..j - 1], OpsOf(plan)[j - 1];
      assert OpsOf(plan)[..j] == ops + [op];
      OneMore(l, ops, op);
      StrandedSoFar(l, inp, c, w, plan, j - 1);
      var now := LiveRun(l, ops);
      OpMeaning(plan, inp, j - 1);
      assert op == OpAt(plan, j - 1);
      if op.Put? {
        assert op.path in inp.remote && w in inp.remote;
        assert w <= c && c < op.path ==> w <= op.path;
      } else {
        DeleteComesNext(l, plan, inp, j - 1);
      }
      StrandedStep(now, c, op);
      assert w in now.dirs by { assert w == c || w < c; }
      UntouchedBy(ops, op, w);
    }
  }

  lemma UntouchedBy(ops: seq<Op>, op: Op, w: Path)
    requires !Touches(ops, w) && op.path != w
    ensures !Touches(ops + [op], w)
  {
    if i :| 0 <= i < |ops + [op]| && (ops + [op])[i].path == w {
      assert i < |ops| && ops[i].path == w;
    }
  }

  /** A retry of a stuck pull is refused, and however far it comes before that, the pull stays stuck. */
  lemma StuckStaysStuck(l: Live, inp: Inputs, c: Path, w: Path, plan: ContentChanges, j: nat)
    requires StuckAt(l, inp, c, w) && IsPlan(plan, inp) && ClashFree(inp.remote)
    requires j <= |OpsOf(plan)| && GetsThrough(l, OpsOf(plan)[..j])
    ensures StuckAt(LiveRun(l, OpsOf(plan)[..j]), inp.(live := LiveRun(l, OpsOf(plan)[..j]).files), c, w)
    ensures !GetsThrough(l, OpsOf(plan))
  {
    StrandedSoFar(l, inp, c, w, plan, j);
    RunLeavesOthers(inp.live, OpsOf(plan)[..j], w);
    if GetsThrough(l, OpsOf(plan)) {
      assert OpsOf(plan)[..|OpsOf(plan)|] == OpsOf(plan);
      StrandedSoFar(l, inp, c, w, plan, |OpsOf(plan)|);
      var i := OpFor(plan, inp, w);
      assert Touches(OpsOf(plan), w);
      assert false;
    }
  }

  /** After some deletes a write of the plan is still to be made. */
  lemma StillToWrite(l: Live, plan: ContentChanges, inp: Inputs, k: nat, w: PlannedWrite, plan': ContentChanges, inp': Inputs)
    requires Sound(l) && IsPlan(plan, inp) && inp.rule.CaseSensitive? && inp.live == l.files && GetsThrough(l, OpsOf(plan))
    requires k < |plan.deletes| && w in plan.writes
    requires inp' == inp.(live := Run(inp.live, OpsOf(plan)[..k + 1])) && IsPlan(plan', inp')
    ensures w.rel != [] && inp'.Verdict(w.rel).Write?
  {
    WritesRemain(plan, inp, k + 1, plan', inp');
    PlanWithStrays(l, Strays(l), plan, inp);
    WritesArePaths(l, plan, inp, w);
  }

  /** A pull killed in a clean-up that does not get through never does: it is stuck. */
  lemma KilledCleanUpIsStuck(l: Live, plan: ContentChanges, inp: Inputs, k: nat, n: nat, w: PlannedWrite, plan': ContentChanges, inp': Inputs)
    requires Sound(l) && IsPlan(plan, inp) && inp.rule.CaseSensitive? && inp.live == l.files
    requires plan.conflicts == [] && GetsThrough(l, OpsOf(plan)) && k < |plan.deletes|
    requires inp' == inp.(live := HalfDeleted(l, plan, k, n).files) && IsPlan(plan', inp')
    requires !HasFile(HalfDeleted(l, plan, k, n).files, LeftOver(l, plan, k, n))
    requires w in plan.writes && w.rel <= LeftOver(l, plan, k, n)
    ensures StuckAt(HalfDeleted(l, plan, k, n), inp', LeftOver(l, plan, k, n), w.rel)
  {
    HalfDeletedStray(l, plan, inp, k, n);
    StillToWrite(l, plan, inp, k, w, plan', inp');
  }
}

/**
 The pull decision of internal/backup/tree.go: which files of one content target a pull writes, which it
 deletes, and where it finds that both sides have moved.

 Three versions of a target's files meet here: base, at the local HEAD; remote, at the commit pulled; and
 live, on disk. The theorems hold for every order in which a plan lists its paths.
 */
module PullPlan {
  import opened Common
  import opened GitTrees

  type Files = map<Path, Blob>

  datatype PlannedWrite = PlannedWrite(rel: Path, blob: Blob)
  datatype ContentChanges = ContentChanges(writes: seq<PlannedWrite>, deletes: seq<Path>, conflicts: seq<Path>)

  /** How the live file system compares names: fold is the identity's stand-in only when it folds case. */
  datatype NameRule = CaseSensitive | CaseFolding(fold: Path -> Path)

  datatype Verdict = Keep | Write(blob: Blob) | Delete | Conflict

  /** The live file a path names, and whether it was found only under another case. */
  datatype Found = Found(content: Option<Blob>, folded: bool)

  // ----- the rule for one path -----

  ghost function FindLive(live: Files, rule: NameRule, liveFolded: Files, rel: Path): Found
  {
    if rel in live then Found(Some(live[rel]), false)
    else if rule.CaseFolding? && rule.fold(rel) in liveFolded then Found(Some(liveFolded[rule.fold(rel)]), true)
    else Found(None, false)
  }

  ghost function Decide(base: Option<Blob>, remote: Option<Blob>, found: Found, checkConflicts: bool): Verdict
    requires found.folded ==> found.content.Some?
  {
    if base == remote then Keep
    else if found.content == remote then (if found.folded then Write(remote.value) else Keep)
    else if !checkConflicts then (if found.content.None? && remote.Some? then Write(remote.value) else Keep)
    else if found.content != base then Conflict
    else if remote.Some? then Write(remote.value)
    else Delete
  }

  /** The inputs of one planning pass. */
  datatype Inputs = Inputs(base: Files, remote: Files, live: Files, rule: NameRule, liveFolded: Files, check: bool)
  {
    ghost function Verdict(rel: Path): Verdict
    {
      Decide(Get(base, rel), Get(remote, rel), FindLive(live, rule, liveFolded, rel), check)
    }
  }

  /** out lists every path of in, once, in the list its verdict names. */
  ghost predicate IsPlan(out: ContentChanges, inp: Inputs)
  {
    && (forall w :: w in out.writes <==> inp.Verdict(w.rel) == Write(w.blob))
    && (forall p :: p in out.deletes <==> inp.Verdict(p) == Delete)
    && (forall p :: p in out.conflicts <==> inp.Verdict(p) == Conflict)
    && NoRepeats(out)
  }

  ghost predicate NoRepeats(out: ContentChanges)
  {
    && (forall i, j :: 0 <= i < j < |out.writes| ==> out.writes[i].rel != out.writes[j].rel)
    && (forall i, j :: 0 <= i < j < |out.deletes| ==> out.deletes[i] != out.deletes[j])
    && (forall i, j :: 0 <= i < j < |out.conflicts| ==> out.conflicts[i] != out.conflicts[j])
  }

  /** liveFolded holds one live content per folded name. */
  ghost predicate FoldsTo(live: Files, fold: Path -> Path, liveFolded: Files)
  {
    && (forall p :: p in live ==> fold(p) in liveFolded)
    && (forall f :: f in liveFolded ==> exists p :: p in live && fold(p) == f && live[p] == liveFolded[f])
  }

  // ----- the code's loops -----

  /** unionKeys: every path of a or b once, in an order the maps decide. */
  method UnionKeys(a: Files, b: Files) returns (keys: seq<Path>)
    ensures forall p :: p in keys <==> p in a || p in b
    ensures forall i, j :: 0 <= i < j < |keys| ==> keys[i] != keys[j]
  {
    keys := [];
    var todo := a.Keys + b.Keys;
    while todo != {}
      invariant todo <= a.Keys + b.Keys
      invariant forall p :: p in keys <==> p in a.Keys + b.Keys && p !in todo
      invariant forall i, j :: 0 <= i < j < |keys| ==> keys[i] != keys[j]
    {
      var p :| p in todo;
      assert forall i :: 0 <= i < |keys| ==> keys[i] in keys;
      keys := keys + [p];
      todo := todo - {p};
    }
  }

  /** The case-folded view of the live files; of two names that fold together one wins. */
  method FoldLive(live: Files, fold: Path -> Path) returns (liveFolded: Files)
    ensures FoldsTo(live, fold, liveFolded)
  {
    liveFolded := map[];
    var todo := live.Keys;
    while todo != {}
      invariant todo <= live.Keys
      invariant forall p :: p in live && p !in todo ==> fold(p) in liveFolded
      invariant forall f :: f in liveFolded ==> exists p :: p in live && fold(p) == f && live[p] == liveFolded[f]
    {
      var p :| p in todo;
      liveFolded := liveFolded[fold(p) := live[p]];
      todo := todo - {p};
    }
  }

  /** out lists the paths of done, each by its verdict. */
  ghost predicate PlanSoFar(out: ContentChanges, inp: Inputs, done: seq<Path>)
  {
    && NoRepeats(out)
    && (forall w :: w in out.writes <==> w.rel in done && inp.Verdict(w.rel) == Write(w.blob))
    && (forall p :: p in out.deletes <==> p in done && inp.Verdict(p) == Delete)
    && (forall p :: p in out.conflicts <==> p in done && inp.Verdict(p) == Conflict)
  }

  ghost function Recorded(out: ContentChanges, rel: Path, v: Verdict): ContentChanges
  {
    match v
    case Keep => out
    case Write(blob) => out.(writes := out.writes + [PlannedWrite(rel, blob)])
    case Delete => out.(deletes := out.deletes + [rel])
    case Conflict => out.(conflicts := out.conflicts + [rel])
  }

  lemma RecordOne(out: ContentChanges, inp: Inputs, done: seq<Path>, rel: Path)
    requires PlanSoFar(out, inp, done) && rel !in done
    ensures PlanSoFar(Recorded(out, rel, inp.Verdict(rel)), inp, done + [rel])
  {
    assert forall j :: 0 <= j < |out.writes| ==> out.writes[j] in out.writes;
    assert forall j :: 0 <= j < |out.deletes| ==> out.deletes[j] in out.deletes;
    assert forall j :: 0 <= j < |out.conflicts| ==> out.conflicts[j] in out.conflicts;
  }

  /** The loop body of planContentChanges: the path goes into the list of its verdict, or nowhere. */
  method PlanPath(inp: Inputs, rel: Path, out: ContentChanges) returns (planned: ContentChanges)
    ensures planned == Recorded(out, rel, inp.Verdict(rel))
  {
    var b, r, l := Get(inp.base, rel), Get(inp.remote, rel), Get(inp.live, rel);
    if b == r {
      return out;
    }
    var found := false;
    if l.None? && inp.rule.CaseFolding? {
      l := Get(inp.liveFolded, inp.rule.fold(rel));
      found := l.Some?;
    }
    if l == r {
      return if found then out.(writes := out.writes + [PlannedWrite(rel, r.value)]) else out;
    }
    if !inp.check {
      return if l.None? && r.Some? then out.(writes := out.writes + [PlannedWrite(rel, r.value)]) else out;
    }
    if l != b {
      return out.(conflicts := out.conflicts + [rel]);
    }
    return if r.Some? then out.(writes := out.writes + [PlannedWrite(rel, r.value)]) else out.(deletes := out.deletes + [rel]);
  }

  /** planContentChanges. liveFolded is the folded view the run happened to build. */
  method PlanContentChanges(base: Files, remote: Files, live: Files, rule: NameRule, checkConflicts: bool)
      returns (out: ContentChanges, ghost liveFolded: Files)
    ensures rule.CaseFolding? ==> FoldsTo(live, rule.fold, liveFolded)
    ensures IsPlan(out, Inputs(base, remote, live, rule, liveFolded, checkConflicts))
  {
    var folded: Files := map[];
    if rule.CaseFolding? {
      folded := FoldLive(live, rule.fold);
    }
    liveFolded := folded;
    var inp := Inputs(base, remote, live, rule, folded, checkConflicts);
    out := ContentChanges([], [], []);
    var paths := UnionKeys(base, remote);
    for i := 0 to |paths|
      invariant PlanSoFar(out, inp, paths[..i])
    {
      assert paths[..i + 1] == paths[..i] + [paths[i]];
      RecordOne(out, inp, paths[..i], paths[i]);
      out := PlanPath(inp, paths[i], out);
    }
    assert paths[..|paths|] == paths;
    assert forall p :: p !in paths ==> inp.Verdict(p) == Keep;
  }
}

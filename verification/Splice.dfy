/**
 spliceTree of internal/backup/tree.go: a tree based on another, with the directories at some
 target paths created, replaced or removed and everything else kept.

 A target path is a non-empty list of segments, as strings.Split by "/" gives it. A replacement of
 None stands for the zero hash and removes its target; the empty result tree stands for "not
 present".
 */
module Splice {
  import opened Common
  import opened GitTrees

  type Replacements = map<Path, Option<Tree>>

  datatype Entry = Entry(name: string, node: Node)

  // ----- the specification: one child at a time, so no iteration order appears in it -----

  ghost predicate AreTails(r: set<Path>, ps: set<Path>, seg: string)
  {
    forall q :: q in r <==> q != [] && [seg] + q in ps
  }

  lemma TailsExist(ps: set<Path>, seg: string) returns (r: set<Path>)
    ensures AreTails(r, ps, seg)
  {
    r := set p | p in ps && |p| > 1 && p[0] == seg :: p[1..];
    forall q | q != [] && [seg] + q in ps
      ensures q in r
    {
      assert ([seg] + q)[1..] == q;
    }
    forall q | q in r
      ensures q != [] && [seg] + q in ps
    {
      var p :| p in ps && |p| > 1 && p[0] == seg && q == p[1..];
      assert [seg] + q == p;
    }
  }

  /** The paths below seg, without it. */
  ghost function Tails(ps: set<Path>, seg: string): (r: set<Path>)
    ensures AreTails(r, ps, seg)
  {
    assert exists r :: AreTails(r, ps, seg) by { var r := TailsExist(ps, seg); }
    var r :| AreTails(r, ps, seg);
    r
  }

  /** The replacements whose target lies strictly below seg, by the rest of their path. */
  ghost function Below(repl: Replacements, seg: string): (r: Replacements)
    ensures forall q :: q in r <==> q != [] && [seg] + q in repl
    ensures forall q :: q in r ==> r[q] == repl[[seg] + q]
  {
    map q | q in Tails(repl.Keys, seg) :: repl[[seg] + q]
  }

  ghost function Heads(ps: set<Path>): set<string>
  {
    set p | p in ps && p != [] :: p[0]
  }

  /** The length of the longest path. */
  ghost function Depth(ps: set<Path>): (n: nat)
    ensures forall p :: p in ps ==> |p| <= n
    ensures ps != {} ==> exists p :: p in ps && |p| == n
  {
    if ps == {} then 0
    else
      var p :| p in ps;
      var rest := Depth(ps - {p});
      assert forall q :: q in ps ==> q == p || q in ps - {p};
      if |p| >= rest then |p| else rest
  }

  lemma BelowIsShallower(repl: Replacements, seg: string)
    requires Below(repl, seg) != map[]
    ensures Depth(Below(repl, seg).Keys) < Depth(repl.Keys)
  {
    var sub := Below(repl, seg);
    assert sub.Keys != {};
    var q :| q in sub.Keys && |q| == Depth(sub.Keys);
    assert [seg] + q in repl.Keys;
  }

  /** What the direct replacement of seg leaves there. */
  ghost function AfterDirect(base: Tree, repl: Replacements, seg: string): Option<Node>
  {
    if [seg] in repl then
      match repl[[seg]]
      case None => None
      case Some(t) => Some(Dir(t))
    else Get(base, seg)
  }

  /** The directory a nested target is spliced into; the empty one when there is none. */
  ghost function ChildBase(base: Tree, repl: Replacements, seg: string): Tree
  {
    match AfterDirect(base, repl, seg)
    case Some(Dir(children)) => children
    case _ => map[]
  }

  ghost function SplicedChild(base: Tree, repl: Replacements, seg: string): Option<Node>
    decreases Depth(repl.Keys), 0
  {
    var sub := Below(repl, seg);
    if sub == map[] then AfterDirect(base, repl, seg)
    else
      BelowIsShallower(repl, seg);
      var t := Spliced(ChildBase(base, repl, seg), sub);
      if t == map[] then None else Some(Dir(t))
  }

  ghost function Spliced(base: Tree, repl: Replacements): (r: Tree)
    ensures forall seg :: Get(r, seg) ==
              if seg in base || seg in Heads(repl.Keys) then SplicedChild(base, repl, seg) else None
    decreases Depth(repl.Keys), 1
  {
    map seg | seg in base.Keys + Heads(repl.Keys) && SplicedChild(base, repl, seg).Some?
      :: SplicedChild(base, repl, seg).value
  }

  /** A target, or a directory on the way to one, is a file: the splice reports an error. */
  ghost predicate Collides(base: Tree, repl: Replacements)
    decreases Depth(repl.Keys)
  {
    exists seg :: seg in Heads(repl.Keys) && CollidesAt(base, repl, seg)
  }

  ghost predicate CollidesAt(base: Tree, repl: Replacements, seg: string)
    decreases Depth(repl.Keys), 0
  {
    || (seg in base && base[seg].File?)
    || (Below(repl, seg) != map[] &&
        (BelowIsShallower(repl, seg);
         Collides(ChildBase(base, repl, seg), Below(repl, seg))))
  }

  ghost predicate PrefixFree(ps: set<Path>)
  {
    forall p, q :: p in ps && q in ps && p <= q ==> p == q
  }

  ghost predicate Targets(repl: Replacements)
  {
    PrefixFree(repl.Keys) && [] !in repl
  }

  // ----- what the spliced tree holds -----

  lemma BelowHasHead(repl: Replacements, seg: string)
    requires [seg] in repl || Below(repl, seg) != map[]
    ensures seg in Heads(repl.Keys)
  {
    if [seg] in repl {
      assert [seg][0] == seg;
    } else {
      var q :| q in Below(repl, seg);
      assert ([seg] + q)[0] == seg;
    }
  }

  lemma BelowKeepsTargets(repl: Replacements, seg: string)
    requires Targets(repl)
    ensures Targets(Below(repl, seg))
    ensures [seg] in repl ==> Below(repl, seg) == map[]
  {
    var sub := Below(repl, seg);
    forall p, q | p in sub && q in sub && p <= q
      ensures p == q
    {
      assert [seg] + p <= [seg] + q;
      assert ([seg] + p)[1..] == p && ([seg] + q)[1..] == q;
    }
    assert forall q | q in sub :: [seg] <= [seg] + q;
  }

  /** The tree spliced at seg, when a target lies strictly below seg. */
  lemma ChildOfSpliced(base: Tree, repl: Replacements, p: Path)
    requires |p| > 1 && Below(repl, p[0]) != map[]
    ensures Lookup(Spliced(base, repl), p) ==
              Lookup(Spliced(ChildBase(base, repl, p[0]), Below(repl, p[0])), p[1..])
  {
    BelowHasHead(repl, p[0]);
    assert Get(Spliced(base, repl), p[0]) == SplicedChild(base, repl, p[0]);
  }

  /** The same for a target of one segment. */
  lemma AtTarget(base: Tree, repl: Replacements, p: Path)
    requires p != [] && [p[0]] in repl && Below(repl, p[0]) == map[]
    ensures Lookup(Spliced(base, repl), p) == if repl[[p[0]]].None? then None else Lookup(repl[[p[0]]].value, p[1..])
  {
    BelowHasHead(repl, p[0]);
    assert Get(Spliced(base, repl), p[0]) == SplicedChild(base, repl, p[0]) == AfterDirect(base, repl, p[0]);
  }

  lemma PathTail(t: Path, p: Path)
    requires |t| > 1 && t <= p
    ensures p[0] == t[0] && |p| > 1 && t[1..] <= p[1..] && [t[0]] + t[1..] == t
    ensures p[1..][|t[1..]|..] == p[|t|..]
  {
  }

  /** A path under a target holds the replacement's file, or nothing when the target is removed. */
  lemma {:induction false} UnderTarget(base: Tree, repl: Replacements, t: Path, p: Path)
    requires Targets(repl) && t in repl && t <= p
    ensures Lookup(Spliced(base, repl), p) ==
              if repl[t].None? then None else Lookup(repl[t].value, p[|t|..])
    decreases |t|
  {
    var seg := t[0];
    BelowKeepsTargets(repl, seg);
    if |t| == 1 {
      assert t == [seg];
      AtTarget(base, repl, p);
    } else {
      PathTail(t, p);
      var below := Below(repl, seg);
      assert t[1..] in below && below[t[1..]] == repl[t];
      ChildOfSpliced(base, repl, p);
      UnderTarget(ChildBase(base, repl, seg), below, t[1..], p[1..]);
    }
  }

  /** Without a target at or below p[0], the spliced tree keeps base's entry there. */
  lemma UntouchedChild(base: Tree, repl: Replacements, p: Path)
    requires p != [] && [p[0]] !in repl && Below(repl, p[0]) == map[]
    ensures Lookup(Spliced(base, repl), p) == Lookup(base, p)
  {
    UntouchedEntry(base, repl, p[0]);
    SameEntrySameLookup(Spliced(base, repl), base, p);
  }

  lemma UntouchedEntry(base: Tree, repl: Replacements, seg: string)
    requires [seg] !in repl && Below(repl, seg) == map[]
    ensures Get(Spliced(base, repl), seg) == Get(base, seg)
  {
    assert SplicedChild(base, repl, seg) == AfterDirect(base, repl, seg);
  }

  lemma SameEntrySameLookup(a: Tree, b: Tree, p: Path)
    requires p != [] && Get(a, p[0]) == Get(b, p[0])
    ensures Lookup(a, p) == Lookup(b, p)
  {
  }

  lemma NoFileAtDirOnTheWay(base: Tree, repl: Replacements, seg: string)
    requires Below(repl, seg) != map[] && !CollidesAt(base, repl, seg)
    ensures Lookup(Spliced(base, repl), [seg]) == Lookup(base, [seg]) == None
    ensures !Collides(ChildBase(base, repl, seg), Below(repl, seg))
    ensures [seg] !in repl ==> forall q :: q != [] ==> Lookup(base, [seg] + q) == Lookup(ChildBase(base, repl, seg), q)
  {
    BelowHasHead(repl, seg);
    assert Get(Spliced(base, repl), seg) == SplicedChild(base, repl, seg);
    forall q: Path | q != [] && [seg] !in repl
      ensures Lookup(base, [seg] + q) == Lookup(ChildBase(base, repl, seg), q)
    {
      assert ([seg] + q)[1..] == q;
    }
  }

  /** A path under no target holds what base holds. */
  lemma {:induction false} OutsideTargets(base: Tree, repl: Replacements, p: Path)
    requires Targets(repl) && !Collides(base, repl)
    requires forall t :: t in repl ==> !(t <= p)
    ensures Lookup(Spliced(base, repl), p) == Lookup(base, p)
    decreases |p|
  {
    if p != [] {
      var seg := p[0];
      var sub := Below(repl, seg);
      assert [seg] <= p && [seg] + p[1..] == p;
      if sub == map[] {
        UntouchedChild(base, repl, p);
      } else {
        BelowHasHead(repl, seg);
        assert !CollidesAt(base, repl, seg);
        NoFileAtDirOnTheWay(base, repl, seg);
        if |p| == 1 {
          assert p == [seg];
        } else {
          BelowKeepsTargets(repl, seg);
          forall t | t in sub
            ensures !(t <= p[1..])
          {
            assert t <= p[1..] ==> [seg] + t <= p;
          }
          OutsideTargets(ChildBase(base, repl, seg), sub, p[1..]);
          ChildOfSpliced(base, repl, p);
        }
      }
    }
  }

  /** The target p falls under; targets never nest, so there is at most one. */
  ghost predicate IsUnder(repl: Replacements, p: Path, t: Path)
  {
    t in repl && t <= p
  }

  /**
   The central law: for targets none of which lies inside another, the spliced tree's files are
   exactly the base files outside the targets and each replacement's files under its target.
   */
  lemma SplicedFiles(base: Tree, repl: Replacements)
    requires Targets(repl) && !Collides(base, repl)
    ensures forall p, t :: IsUnder(repl, p, t) ==>
              Lookup(Spliced(base, repl), p) ==
              if repl[t].None? then None else Lookup(repl[t].value, p[|t|..])
    ensures forall p :: (forall t :: !IsUnder(repl, p, t)) ==> Lookup(Spliced(base, repl), p) == Lookup(base, p)
  {
    forall p, t | IsUnder(repl, p, t)
      ensures Lookup(Spliced(base, repl), p) ==
              if repl[t].None? then None else Lookup(repl[t].value, p[|t|..])
    {
      UnderTarget(base, repl, t, p);
    }
    forall p | forall t :: !IsUnder(repl, p, t)
      ensures Lookup(Spliced(base, repl), p) == Lookup(base, p)
    {
      forall t | t in repl
        ensures !(t <= p)
      {
        assert !IsUnder(repl, p, t);
      }
      OutsideTargets(base, repl, p);
    }
  }

  lemma ChildBaseLookup(base: Tree, repl: Replacements, seg: string, q: Path)
    requires [seg] !in repl && q != [] && !(seg in base && base[seg].File?)
    ensures Lookup(base, [seg] + q) == Lookup(ChildBase(base, repl, seg), q)
  {
    assert ([seg] + q)[1..] == q;
  }

  ghost predicate FileOnTheWay(base: Tree, repl: Replacements, t: Path, k: nat)
  {
    t in repl && 0 < k <= |t| && Lookup(base, t[..k]).Some?
  }

  lemma FileAtHead(base: Tree, repl: Replacements, seg: string) returns (t: Path)
    requires seg in Heads(repl.Keys) && seg in base && base[seg].File?
    ensures FileOnTheWay(base, repl, t, 1)
  {
    t :| t in repl.Keys && t != [] && t[0] == seg;
    assert t[..1] == [seg];
  }

  lemma FileBelow(base: Tree, repl: Replacements, seg: string, u: Path, j: nat)
    requires Targets(repl) && Below(repl, seg) != map[] && !(seg in base && base[seg].File?)
    requires FileOnTheWay(ChildBase(base, repl, seg), Below(repl, seg), u, j)
    ensures FileOnTheWay(base, repl, [seg] + u, j + 1)
  {
    BelowKeepsTargets(repl, seg);
    ChildBaseLookup(base, repl, seg, u[..j]);
    assert ([seg] + u)[..j + 1] == [seg] + u[..j];
  }

  lemma {:induction false} CollisionGivesFile(base: Tree, repl: Replacements) returns (t: Path, k: nat)
    requires Targets(repl) && Collides(base, repl)
    ensures FileOnTheWay(base, repl, t, k)
    decreases Depth(repl.Keys)
  {
    var seg :| seg in Heads(repl.Keys) && CollidesAt(base, repl, seg);
    if seg in base && base[seg].File? {
      k := 1;
      t := FileAtHead(base, repl, seg);
    } else {
      BelowKeepsTargets(repl, seg);
      BelowIsShallower(repl, seg);
      var u, j := CollisionGivesFile(ChildBase(base, repl, seg), Below(repl, seg));
      FileBelow(base, repl, seg, u, j);
      t, k := [seg] + u, j + 1;
    }
  }

  lemma {:induction false} FileGivesCollision(base: Tree, repl: Replacements, t: Path, k: nat)
    requires Targets(repl) && FileOnTheWay(base, repl, t, k)
    ensures Collides(base, repl)
    decreases k
  {
    var seg := t[0];
    assert seg in Heads(repl.Keys);
    if base[seg].Dir? {
      assert t[..k][1..] == t[1..][..k - 1];
      assert Lookup(base[seg].children, []) == None;
      assert k > 1;
      assert [seg] + t[1..] == t;
      assert t[1..] in Below(repl, seg);
      BelowKeepsTargets(repl, seg);
      FileGivesCollision(ChildBase(base, repl, seg), Below(repl, seg), t[1..], k - 1);
    }
    assert CollidesAt(base, repl, seg);
  }

  /** The splice fails exactly when some target, or a directory leading to one, is a file in base. */
  lemma CollidesMeansFileOnTheWay(base: Tree, repl: Replacements)
    requires Targets(repl)
    ensures Collides(base, repl) <==> exists t, k :: FileOnTheWay(base, repl, t, k)
  {
    if Collides(base, repl) {
      var t, k := CollisionGivesFile(base, repl);
    }
    if t, k :| FileOnTheWay(base, repl, t, k) {
      FileGivesCollision(base, repl, t, k);
    }
  }

  /** The result is "not present" only when no file is left, and, below non-empty directories, always then. */
  lemma NotPresentMeansEmpty(base: Tree, repl: Replacements)
    requires NoEmptyDirs(base)
    requires AllSolid(repl)
    ensures Spliced(base, repl) == map[] <==> forall p :: Lookup(Spliced(base, repl), p).None?
  {
    var s := Spliced(base, repl);
    if s != map[] {
      SpliceKeepsDirsNonEmpty(base, repl);
      var name :| name in s;
      var p := NonEmptyTreeHasFile(s[name], name, s);
    }
  }

  /** Spliced into nothing, targets without a tree give nothing, and any other target gives something. */
  lemma SplicedIntoNothing(repl: Replacements)
    requires Targets(repl) && AllSolid(repl)
    ensures Spliced(map[], repl) == map[] <==> forall t :: t in repl ==> repl[t].None?
  {
    EmptyTreeIsFine();
    NotPresentMeansEmpty(map[], repl);
    assert forall p :: Lookup(map[], p).None?;
    CollidesMeansFileOnTheWay(map[], repl);
    SplicedFiles(map[], repl);
    if t :| t in repl && repl[t].Some? {
      var name :| name in repl[t].value;
      var p := NonEmptyTreeHasFile(repl[t].value[name], name, repl[t].value);
      assert IsUnder(repl, t + p, t) && (t + p)[|t|..] == p;
    } else {
      forall p
        ensures Lookup(Spliced(map[], repl), p).None?
      {
        if t :| IsUnder(repl, p, t) {
          assert repl[t].None?;
        }
      }
    }
  }

  ghost predicate Solid(t: Tree)
  {
    t != map[] && NoEmptyDirs(t)
  }

  /** A tree whose directories are all non-empty below every entry is NoEmptyDirs itself. */
  lemma NoEmptyDirsFromChildren(t: Tree)
    requires forall seg :: seg in t && t[seg].Dir? ==> Solid(t[seg].children)
    ensures NoEmptyDirs(t)
  {
    forall p: Path | p != [] && Subtree(t, p).Some?
      ensures Subtree(t, p).value != map[]
    {
      assert Subtree(t, p) == Subtree(t[p[0]].children, p[1..]);
    }
  }

  lemma ChildBaseSolid(base: Tree, repl: Replacements, seg: string)
    requires NoEmptyDirs(base)
    requires [seg] in repl && repl[[seg]].Some? ==> Solid(repl[[seg]].value)
    ensures NoEmptyDirs(ChildBase(base, repl, seg))
    ensures AfterDirect(base, repl, seg).Some? && AfterDirect(base, repl, seg).value.Dir? ==>
              Solid(ChildBase(base, repl, seg))
  {
    EmptyTreeIsFine();
    if seg in base && base[seg].Dir? { ChildInherits(base, seg, _ => true); }
  }

  ghost predicate AllSolid(repl: Replacements)
  {
    forall t :: t in repl && repl[t].Some? ==> Solid(repl[t].value)
  }

  lemma BelowIsSolid(repl: Replacements, seg: string)
    requires AllSolid(repl)
    ensures AllSolid(Below(repl, seg))
    ensures [seg] in repl && repl[[seg]].Some? ==> Solid(repl[[seg]].value)
  {
    var sub := Below(repl, seg);
    forall q | q in sub && sub[q].Some?
      ensures Solid(sub[q].value)
    {
      assert sub[q] == repl[[seg] + q];
    }
  }

  lemma {:induction false} SplicedChildSolid(base: Tree, repl: Replacements, seg: string)
    requires NoEmptyDirs(base) && AllSolid(repl)
    ensures SplicedChild(base, repl, seg).Some? && SplicedChild(base, repl, seg).value.Dir? ==>
              Solid(SplicedChild(base, repl, seg).value.children)
    decreases Depth(repl.Keys), 0
  {
    BelowIsSolid(repl, seg);
    ChildBaseSolid(base, repl, seg);
    var sub := Below(repl, seg);
    if sub != map[] {
      BelowIsShallower(repl, seg);
      SpliceKeepsDirsNonEmpty(ChildBase(base, repl, seg), sub);
    }
  }

  lemma {:induction false} SpliceKeepsDirsNonEmpty(base: Tree, repl: Replacements)
    requires NoEmptyDirs(base) && AllSolid(repl)
    ensures NoEmptyDirs(Spliced(base, repl))
    decreases Depth(repl.Keys), 1
  {
    var s := Spliced(base, repl);
    forall seg | seg in s && s[seg].Dir?
      ensures Solid(s[seg].children)
    {
      assert Get(s, seg) == SplicedChild(base, repl, seg);
      SplicedChildSolid(base, repl, seg);
    }
    NoEmptyDirsFromChildren(s);
  }

  lemma EmptyTreeIsFine()
    ensures NoEmptyDirs(map[])
  {
    assert forall p: Path :: p != [] ==> Subtree(map[], p).None?;
  }

  // ----- the code's own form: slices of entries, filled and filtered by loops -----

  ghost predicate DistinctNames(entries: seq<Entry>)
  {
    forall i, j :: 0 <= i < j < |entries| ==> entries[i].name != entries[j].name
  }

  /** entries lists t's children, each name once, in any order. */
  ghost predicate Lists(entries: seq<Entry>, t: Tree)
  {
    && DistinctNames(entries)
    && (forall e :: e in entries ==> Get(t, e.name) == Some(e.node))
    && (forall name :: name in t ==> Entry(name, t[name]) in entries)
  }

  /** The entries of a stored tree object, in some order. */
  method ReadEntries(t: Tree) returns (entries: seq<Entry>)
    ensures Lists(entries, t)
  {
    entries := [];
    var todo := t.Keys;
    while todo != {}
      invariant todo <= t.Keys && DistinctNames(entries)
      invariant forall e :: e in entries ==> Get(t, e.name) == Some(e.node) && e.name !in todo
      invariant forall name :: name in t && name !in todo ==> Entry(name, t[name]) in entries
    {
      var name :| name in todo;
      assert forall i :: 0 <= i < |entries| ==> entries[i] in entries;
      entries := entries + [Entry(name, t[name])];
      todo := todo - {name};
    }
  }

  /** writeTree: stores the entries as one tree object. */
  method WriteTree(entries: seq<Entry>, ghost t: Tree) returns (r: Tree)
    requires Lists(entries, t)
    ensures r == t
  {
    r := map[];
    for i := 0 to |entries|
      invariant forall name :: name in r ==> name in t && r[name] == t[name]
      invariant forall j :: 0 <= j < i ==> entries[j].name in r
    {
      assert entries[i] in entries;
      r := r[entries[i].name := entries[i].node];
    }
    forall name | name in t
      ensures name in r
    {
      assert Entry(name, t[name]) in entries;
    }
  }

  method FindTreeEntry(entries: seq<Entry>, name: string, ghost t: Tree) returns (r: Option<Node>)
    requires Lists(entries, t)
    ensures r == Get(t, name)
  {
    for i := 0 to |entries|
      invariant forall j :: 0 <= j < i ==> entries[j].name != name
    {
      if entries[i].name == name {
        assert entries[i] in entries;
        return Some(entries[i].node);
      }
    }
    r := None;
  }

  ghost function Upserted(t: Tree, name: string, dir: Option<Tree>): (r: Tree)
  {
    match dir
    case None => t - {name}
    case Some(children) => t[name := Dir(children)]
  }

  lemma UpsertedGet(t: Tree, name: string, dir: Option<Tree>)
    ensures Get(Upserted(t, name, dir), name) == if dir.None? then None else Some(Dir(dir.value))
    ensures forall other :: other != name ==> Get(Upserted(t, name, dir), other) == Get(t, other)
  {
  }

  /** upsertTreeEntry: drops the entry named name and appends the directory unless it is None. */
  method UpsertTreeEntry(entries: seq<Entry>, name: string, dir: Option<Tree>, ghost t: Tree) returns (out: seq<Entry>)
    requires Lists(entries, t)
    ensures Lists(out, Upserted(t, name, dir))
  {
    out := [];
    for i := 0 to |entries|
      invariant DistinctNames(out)
      invariant forall e :: e in out <==> e in entries[..i] && e.name != name
    {
      assert entries[..i + 1] == entries[..i] + [entries[i]];
      if entries[i].name != name {
        forall k | 0 <= k < |out|
          ensures out[k].name != entries[i].name
        {
          assert out[k] in entries[..i];
        }
        out := out + [entries[i]];
      }
    }
    assert entries[..|entries|] == entries;
    if dir.Some? {
      assert forall k :: 0 <= k < |out| ==> out[k] in out;
      out := out + [Entry(name, Dir(dir.value))];
    }
  }

  /** One direct replacement. */
  lemma DirectStep(base: Tree, repl: Replacements, t: Tree, name: string, with: Option<Tree>)
    requires Get(repl, [name]) == Some(with)
    ensures forall seg :: Get(Upserted(t, name, with), seg) == if seg == name then AfterDirect(base, repl, seg) else Get(t, seg)
  {
  }

  /** The loop over the direct replacements. */
  method SpliceDirect(base: Tree, ghost repl: Replacements, direct: map<string, Option<Tree>>)
      returns (ok: bool, entries: seq<Entry>, ghost t: Tree)
    requires forall seg :: Get(direct, seg) == Get(repl, [seg])
    ensures ok <==> forall seg :: seg in direct ==> !(seg in base && base[seg].File?)
    ensures ok ==> Lists(entries, t) && forall seg :: Get(t, seg) == AfterDirect(base, repl, seg)
  {
    entries := ReadEntries(base);
    t := base;
    var todo := direct.Keys;
    while todo != {}
      invariant todo <= direct.Keys && Lists(entries, t)
      invariant forall seg :: seg in direct && seg !in todo ==> !(seg in base && base[seg].File?)
      invariant forall seg :: Get(t, seg) ==
                  if seg in direct && seg !in todo then AfterDirect(base, repl, seg) else Get(base, seg)
    {
      var name :| name in todo;
      var e := FindTreeEntry(entries, name, t);
      if e.Some? && e.value.File? {
        return false, entries, t;
      }
      entries := UpsertTreeEntry(entries, name, direct[name], t);
      DirectStep(base, repl, t, name, direct[name]);
      t := Upserted(t, name, direct[name]);
      todo := todo - {name};
    }
    ok := true;
  }

  /** One iteration of the loop over the groups: splice below seg and put the result back. */
  method SpliceGroup(base: Tree, ghost repl: Replacements, seg: string, group: Replacements,
                     entries: seq<Entry>, ghost t: Tree)
      returns (ok: bool, out: seq<Entry>, ghost u: Tree)
    requires Lists(entries, t) && Get(t, seg) == AfterDirect(base, repl, seg)
    requires group == Below(repl, seg) && group != map[]
    requires !([seg] in repl && seg in base && base[seg].File?)
    ensures ok <==> !CollidesAt(base, repl, seg)
    ensures ok ==> Lists(out, u) && Get(u, seg) == SplicedChild(base, repl, seg)
    ensures ok ==> forall other :: other != seg ==> Get(u, other) == Get(t, other)
    decreases Depth(repl.Keys), 0
  {
    out, u := entries, t;
    var e := FindTreeEntry(entries, seg, t);
    ChildToSplice(base, repl, seg);
    if e.Some? && e.value.File? {
      return false, out, u;
    }
    var childBase := if e.Some? then e.value.children else map[];
    BelowIsShallower(repl, seg);
    var sub := SpliceTree(childBase, group);
    if sub.Err? {
      return false, out, u;
    }
    var dir := if sub.value == map[] then None else Some(sub.value);
    out := UpsertTreeEntry(entries, seg, dir, t);
    u := Upserted(t, seg, dir);
    UpsertedGet(t, seg, dir);
    ok := true;
  }

  /** What the entry at seg means for splicing below it. */
  lemma ChildToSplice(base: Tree, repl: Replacements, seg: string)
    requires Below(repl, seg) != map[] && !([seg] in repl && seg in base && base[seg].File?)
    ensures
      var e := AfterDirect(base, repl, seg);
      var below := Spliced(ChildBase(base, repl, seg), Below(repl, seg));
      if e.Some? && e.value.File? then CollidesAt(base, repl, seg)
      else
        && ChildBase(base, repl, seg) == (if e.Some? then e.value.children else map[])
        && (CollidesAt(base, repl, seg) <==> Collides(ChildBase(base, repl, seg), Below(repl, seg)))
        && SplicedChild(base, repl, seg) == if below == map[] then None else Some(Dir(below))
  {
  }

  /** The loop over the groups, in an arbitrary order. */
  method SpliceGroups(base: Tree, ghost repl: Replacements, groups: map<string, Replacements>,
                      entries: seq<Entry>, ghost t: Tree)
      returns (ok: bool, out: seq<Entry>, ghost u: Tree)
    requires Lists(entries, t) && forall seg :: Get(t, seg) == AfterDirect(base, repl, seg)
    requires forall seg :: seg in groups ==> groups[seg] == Below(repl, seg) && groups[seg] != map[]
    requires forall seg :: [seg] in repl ==> !(seg in base && base[seg].File?)
    ensures !ok ==> exists seg :: seg in groups && CollidesAt(base, repl, seg)
    ensures ok ==> Lists(out, u)
    ensures ok ==> forall seg :: seg in groups ==> !CollidesAt(base, repl, seg)
    ensures ok ==> forall seg :: seg in groups ==> Get(u, seg) == SplicedChild(base, repl, seg)
    ensures ok ==> forall seg :: seg !in groups ==> Get(u, seg) == AfterDirect(base, repl, seg)
    decreases Depth(repl.Keys), 1
  {
    out, u := entries, t;
    var todo := groups.Keys;
    while todo != {}
      invariant todo <= groups.Keys && Lists(out, u) && GroupsDone(base, repl, groups, todo, u)
    {
      var seg :| seg in todo;
      ghost var before := u;
      ok, out, u := SpliceGroup(base, repl, seg, groups[seg], out, u);
      if !ok {
        return;
      }
      GroupDone(base, repl, groups, todo, before, u, seg);
      todo := todo - {seg};
    }
    ok := true;
  }

  /** The groups that are not left to do are spliced into u, and none of them collided. */
  ghost predicate GroupsDone(base: Tree, repl: Replacements, groups: map<string, Replacements>, todo: set<string>, u: Tree)
  {
    forall seg ::
      if seg in groups && seg !in todo then !CollidesAt(base, repl, seg) && Get(u, seg) == SplicedChild(base, repl, seg)
      else Get(u, seg) == AfterDirect(base, repl, seg)
  }

  lemma GroupDone(base: Tree, repl: Replacements, groups: map<string, Replacements>, todo: set<string>, u: Tree, after: Tree, seg: string)
    requires GroupsDone(base, repl, groups, todo, u) && seg in todo && todo <= groups.Keys
    requires !CollidesAt(base, repl, seg) && Get(after, seg) == SplicedChild(base, repl, seg)
    requires forall other :: other != seg ==> Get(after, other) == Get(u, other)
    ensures GroupsDone(base, repl, groups, todo - {seg}, after)
  {
  }

  lemma CollisionFound(base: Tree, repl: Replacements, seg: string)
    requires [seg] in repl || Below(repl, seg) != map[]
    requires CollidesAt(base, repl, seg)
    ensures Collides(base, repl)
  {
    BelowHasHead(repl, seg);
  }

  /**
   spliceTree. Replacements are split at their first segment into direct ones and groups, each
   visited in an arbitrary order; the result is the same tree for every order.
   */
  method SpliceTree(base: Tree, repl: Replacements) returns (r: Result<Tree, string>)
    requires [] !in repl
    ensures r.Err? <==> Collides(base, repl)
    ensures r.Ok? ==> r.value == Spliced(base, repl)
    decreases Depth(repl.Keys), 2
  {
    var direct, groups := SplitReplacements(repl);
    var ok, entries, t := SpliceDirect(base, repl, direct);
    if !ok {
      ghost var seg :| seg in direct && seg in base && base[seg].File?;
      assert Get(repl, [seg]).Some?;
      CollisionFound(base, repl, seg);
      return Err("collision");
    }
    forall seg | [seg] in repl
      ensures !(seg in base && base[seg].File?)
    {
      assert Get(direct, seg).Some?;
    }
    forall seg | seg in groups
      ensures groups[seg] == Below(repl, seg) && groups[seg] != map[]
    {
      assert Get(groups, seg) == Some(groups[seg]);
    }
    ghost var u;
    ok, entries, u := SpliceGroups(base, repl, groups, entries, t);
    if !ok {
      ghost var seg :| seg in groups && CollidesAt(base, repl, seg);
      CollisionFound(base, repl, seg);
      return Err("collision");
    }
    SplicedPointwise(base, repl, groups, u);
    var out := WriteTree(entries, u);
    r := Ok(out);
  }

  lemma SplicedPointwise(base: Tree, repl: Replacements, groups: map<string, Replacements>, t: Tree)
    requires forall seg :: Get(groups, seg) == if Below(repl, seg) == map[] then None else Some(Below(repl, seg))
    requires forall seg :: seg in groups ==> !CollidesAt(base, repl, seg)
    requires forall seg :: [seg] in repl ==> !(seg in base && base[seg].File?)
    requires forall seg :: seg in groups ==> Get(t, seg) == SplicedChild(base, repl, seg)
    requires forall seg :: seg !in groups ==> Get(t, seg) == AfterDirect(base, repl, seg)
    ensures t == Spliced(base, repl) && !Collides(base, repl)
  {
    forall seg
      ensures Get(t, seg) == Get(Spliced(base, repl), seg)
    {
      if [seg] in repl || Below(repl, seg) != map[] { BelowHasHead(repl, seg); }
    }
    SameLookups(t, Spliced(base, repl));
    forall seg | seg in Heads(repl.Keys)
      ensures !CollidesAt(base, repl, seg)
    {
      HeadIsDirectOrGroup(repl, seg);
    }
  }

  lemma HeadIsDirectOrGroup(repl: Replacements, seg: string)
    requires seg in Heads(repl.Keys)
    ensures [seg] in repl || Below(repl, seg) != map[]
  {
    var p :| p in repl.Keys && p != [] && p[0] == seg;
    assert p == [seg] + p[1..];
    if p[1..] == [] { assert p == [seg]; } else { assert p[1..] in Below(repl, seg); }
  }

  lemma RecordedDirect(seen: Replacements, seg: string, dir: Option<Tree>)
    ensures forall s :: Below(seen[[seg] := dir], s) == Below(seen, s)
    ensures forall s :: Get(seen[[seg] := dir], [s]) == if s == seg then Some(dir) else Get(seen, [s])
  {
    forall s
      ensures Below(seen[[seg] := dir], s) == Below(seen, s)
    {
      var a, b := Below(seen[[seg] := dir], s), Below(seen, s);
      forall q | q != []
        ensures q in a <==> q in b
      {
        assert |[s] + q| > |[seg]|;
      }
      assert a.Keys == b.Keys;
    }
  }

  lemma RecordedNested(seen: Replacements, seg: string, rest: Path, dir: Option<Tree>)
    requires rest != []
    ensures forall s :: Below(seen[[seg] + rest := dir], s) ==
                        if s == seg then Below(seen, seg)[rest := dir] else Below(seen, s)
    ensures forall s :: Get(seen[[seg] + rest := dir], [s]) == Get(seen, [s])
  {
    forall s
      ensures Below(seen[[seg] + rest := dir], s) == if s == seg then Below(seen, seg)[rest := dir] else Below(seen, s)
    {
      var a := Below(seen[[seg] + rest := dir], s);
      var b := if s == seg then Below(seen, seg)[rest := dir] else Below(seen, s);
      forall q | q != []
        ensures [s] + q == [seg] + rest <==> s == seg && q == rest
      {
        assert ([s] + q)[0] == s && ([s] + q)[1..] == q;
        assert ([seg] + rest)[0] == seg && ([seg] + rest)[1..] == rest;
      }
      assert a.Keys == b.Keys;
    }
    assert forall s: string :: |[s]| != |[seg] + rest|;
  }

  /** direct and groups hold what SplitReplacements has read from seen. */
  ghost predicate Split(seen: Replacements, direct: map<string, Option<Tree>>, groups: map<string, Replacements>)
  {
    && (forall seg :: Get(direct, seg) == Get(seen, [seg]))
    && (forall seg :: Get(groups, seg) == if Below(seen, seg) == map[] then None else Some(Below(seen, seg)))
  }

  lemma SplitNested(seen: Replacements, direct: map<string, Option<Tree>>, groups: map<string, Replacements>,
                    seg: string, rest: Path, dir: Option<Tree>, group: Replacements)
    requires rest != [] && Split(seen, direct, groups)
    requires group == Below(seen, seg)
    ensures Split(seen[[seg] + rest := dir], direct, groups[seg := group[rest := dir]])
  {
    var after := seen[[seg] + rest := dir];
    var groups' := groups[seg := group[rest := dir]];
    RecordedNested(seen, seg, rest, dir);
    forall s
      ensures Get(groups', s) == if Below(after, s) == map[] then None else Some(Below(after, s))
    {
      if s == seg {
        assert Below(after, s) == group[rest := dir] && rest in Below(after, s);
      } else {
        assert Get(groups', s) == Get(groups, s);
      }
    }
  }

  lemma SplitDirect(seen: Replacements, direct: map<string, Option<Tree>>, groups: map<string, Replacements>,
                    seg: string, dir: Option<Tree>)
    requires Split(seen, direct, groups)
    ensures Split(seen[[seg] := dir], direct[seg := dir], groups)
  {
    RecordedDirect(seen, seg, dir);
  }

  /** The first loop of spliceTree: strings.Cut each path at its first slash. */
  method SplitReplacements(repl: Replacements)
      returns (direct: map<string, Option<Tree>>, groups: map<string, Replacements>)
    requires [] !in repl
    ensures Split(repl, direct, groups)
  {
    direct, groups := map[], map[];
    var todo := repl.Keys;
    ghost var seen: Replacements := map[];
    while todo != {}
      invariant todo <= repl.Keys
      invariant seen.Keys == repl.Keys - todo && forall p :: p in seen ==> seen[p] == repl[p]
      invariant Split(seen, direct, groups)
    {
      var p :| p in todo;
      var seg, rest := p[0], p[1..];
      assert p == [seg] + rest;
      if rest == [] {
        assert p == [seg];
        SplitDirect(seen, direct, groups, seg, repl[p]);
        direct := direct[seg := repl[p]];
      } else {
        var group: Replacements := if seg in groups then groups[seg] else map[];
        assert group == Below(seen, seg) by { assert Get(groups, seg) == if seg in groups then Some(group) else None; }
        SplitNested(seen, direct, groups, seg, rest, repl[p], group);
        groups := groups[seg := group[rest := repl[p]]];
      }
      seen := seen[p := repl[p]];
      todo := todo - {p};
    }
    assert seen == repl;
  }
}

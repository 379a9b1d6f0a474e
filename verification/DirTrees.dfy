/**
 buildDirTree of internal/backup/tree.go: turning a live directory into a git tree.

 The .gitignore rules are a predicate on the path relative to the repository root and on whether
 the path is a directory; the entry-name rules are a predicate on one name. Both are arbitrary.
 Reads of the disk succeed here: a failing read ends the build and nothing is stored.
 */
module DirTrees {
  import opened Common
  import opened GitTrees

  /** A directory entry on disk. LiveOther is a socket, device or FIFO. */
  datatype LiveNode = LiveFile(leaf: Leaf) | LiveOther | LiveDir(children: map<string, LiveNode>)
  type LiveDirectory = map<string, LiveNode>

  /** The regular file or symlink at p, if p names one. */
  function LiveLookup(d: LiveDirectory, p: Path): Option<Leaf>
    decreases |p|
  {
    if p == [] || p[0] !in d then None
    else match d[p[0]]
      case LiveFile(leaf) => if |p| == 1 then Some(leaf) else None
      case LiveOther => None
      case LiveDir(children) => LiveLookup(children, p[1..])
  }

  /** The rules a backup leaves files out by. */
  datatype Rules = Rules(ignored: (Path, bool) -> bool, valid: string -> bool)
  {
    /** buildDirTree looks at the entry called name in directory rel. */
    predicate Takes(rel: Path, name: string, isDir: bool)
    {
      name != ".git" && !ignored(rel + [name], isDir) && valid(name)
    }
  }

  /** The k-th segment of p passes the rules in the directory it is found in. */
  ghost predicate TakenAt(rules: Rules, rel: Path, p: Path, k: nat)
    requires k < |p|
  {
    rules.Takes(rel + p[..k], p[k], k + 1 < |p|)
  }

  /** Every directory on the way to the file p below rel, and the file itself, is taken. */
  ghost predicate Kept(rules: Rules, rel: Path, p: Path)
  {
    forall k :: 0 <= k < |p| ==> TakenAt(rules, rel, p, k)
  }

  /**
   What keeps a file: no entry on the way to it is called .git, has a refused name, or is ignored - as a directory
   on the way, as a file at the end.
   */
  lemma KeptIff(rules: Rules, rel: Path, p: Path)
    ensures Kept(rules, rel, p) <==>
              forall k :: 0 <= k < |p| ==> p[k] != ".git" && rules.valid(p[k]) && !rules.ignored(rel + p[..k + 1], k < |p| - 1)
  {
    forall k | 0 <= k < |p|
      ensures TakenAt(rules, rel, p, k) <==> p[k] != ".git" && rules.valid(p[k]) && !rules.ignored(rel + p[..k + 1], k < |p| - 1)
    {
      assert rel + p[..k] + [p[k]] == rel + p[..k + 1];
    }
  }

  /** t holds exactly the kept files of d below the entries called names. */
  ghost predicate Backs(t: Tree, d: LiveDirectory, names: set<string>, rules: Rules, rel: Path)
  {
    forall p: Path :: Lookup(t, p) ==
      if p != [] && p[0] in names && Kept(rules, rel, p) then LiveLookup(d, p) else None
  }

  lemma KeptStep(rules: Rules, rel: Path, p: Path)
    requires p != []
    ensures Kept(rules, rel, p) <==>
              rules.Takes(rel, p[0], |p| > 1) && Kept(rules, rel + [p[0]], p[1..])
  {
    var deep := rel + [p[0]];
    assert rel + p[..0] == rel;
    assert TakenAt(rules, rel, p, 0) <==> rules.Takes(rel, p[0], |p| > 1);
    forall k | 0 <= k < |p[1..]|
      ensures TakenAt(rules, rel, p, k + 1) <==> TakenAt(rules, deep, p[1..], k)
    {
      assert rel + p[..k + 1] == deep + p[1..][..k];
    }
    if rules.Takes(rel, p[0], |p| > 1) && Kept(rules, deep, p[1..]) {
      forall k | 0 <= k < |p|
        ensures TakenAt(rules, rel, p, k)
      {
        if k > 0 {
          assert TakenAt(rules, deep, p[1..], k - 1);
        }
      }
    }
  }

  lemma BacksDir(t: Tree, d: LiveDirectory, done: set<string>, name: string, rules: Rules, rel: Path, sub: Tree)
    requires Backs(t, d, done, rules, rel) && name !in done && name !in t
    requires name in d && d[name].LiveDir? && rules.Takes(rel, name, true)
    requires Backs(sub, d[name].children, d[name].children.Keys, rules, rel + [name])
    ensures Backs(if sub == map[] then t else t[name := Dir(sub)], d, done + {name}, rules, rel)
  {
    var out := if sub == map[] then t else t[name := Dir(sub)];
    forall p: Path
      ensures Lookup(out, p) ==
        if p != [] && p[0] in done + {name} && Kept(rules, rel, p) then LiveLookup(d, p) else None
    {
      if p != [] {
        KeptStep(rules, rel, p);
        if p[0] == name {
          assert Lookup(out, p) == Lookup(sub, p[1..]);
        } else {
          assert Lookup(out, p) == Lookup(t, p);
        }
      }
    }
  }

  lemma BacksFile(t: Tree, d: LiveDirectory, done: set<string>, name: string, rules: Rules, rel: Path)
    requires Backs(t, d, done, rules, rel) && name !in done && name !in t
    requires name in d && d[name].LiveFile? && rules.Takes(rel, name, false)
    ensures Backs(t[name := File(d[name].leaf)], d, done + {name}, rules, rel)
  {
    var out := t[name := File(d[name].leaf)];
    forall p: Path
      ensures Lookup(out, p) ==
        if p != [] && p[0] in done + {name} && Kept(rules, rel, p) then LiveLookup(d, p) else None
    {
      if p != [] {
        KeptStep(rules, rel, p);
        if p[0] != name {
          assert Lookup(out, p) == Lookup(t, p);
        }
      }
    }
  }

  lemma BacksNothing(t: Tree, d: LiveDirectory, done: set<string>, name: string, rules: Rules, rel: Path)
    requires Backs(t, d, done, rules, rel)
    requires name in d
    requires d[name].LiveOther? || !rules.Takes(rel, name, d[name].LiveDir?)
    ensures Backs(t, d, done + {name}, rules, rel)
  {
    forall p: Path | p != [] && p[0] == name
      ensures LiveLookup(d, p).Some? ==> !Kept(rules, rel, p)
    {
      KeptStep(rules, rel, p);
      if LiveLookup(d, p).Some? {
        if d[name].LiveDir? {
          assert LiveLookup(d, p) == LiveLookup(d[name].children, p[1..]);
          assert p[1..] != [];
        }
      }
    }
    forall p: Path
      ensures Lookup(t, p) ==
        if p != [] && p[0] in done + {name} && Kept(rules, rel, p) then LiveLookup(d, p) else None
    {
      if p != [] && p[0] == name && LiveLookup(d, p).None? {
        assert Lookup(t, p).None?;
      }
    }
  }

  /**
   buildDirTree: the tree holds exactly the files of d none of whose path prefixes is ignored and
   all of whose segments are valid entry names; every name in it passes the check the pull applies
   when it reads the tree back; and it has no empty directory. The empty tree is "not present".
   */
  method BuildDirTree(d: LiveDirectory, rules: Rules, rel: Path) returns (t: Tree)
    ensures Backs(t, d, d.Keys, rules, rel)
    ensures NamesValid(t, rules.valid)
    ensures NoEmptyDirs(t)
    decreases LiveDir(d)
  {
    t := map[];
    var todo := d.Keys;
    while todo != {}
      invariant todo <= d.Keys
      invariant t.Keys <= d.Keys - todo
      invariant Backs(t, d, d.Keys - todo, rules, rel)
      invariant forall name :: name in t ==> rules.valid(name)
      invariant forall name :: name in t && t[name].Dir? ==>
                  t[name].children != map[] && NamesValid(t[name].children, rules.valid) && NoEmptyDirs(t[name].children)
    {
      var name :| name in todo;
      ghost var done := d.Keys - todo;
      assert done + {name} == d.Keys - (todo - {name});
      todo := todo - {name};
      if !rules.Takes(rel, name, d[name].LiveDir?) {
        BacksNothing(t, d, done, name, rules, rel);
        continue;
      }
      match d[name] {
        case LiveDir(children) =>
          var sub := BuildDirTree(children, rules, rel + [name]);
          BacksDir(t, d, done, name, rules, rel, sub);
          if sub != map[] {
            t := t[name := Dir(sub)];
          }
        case LiveFile(leaf) =>
          BacksFile(t, d, done, name, rules, rel);
          t := t[name := File(leaf)];
        case LiveOther =>
          BacksNothing(t, d, done, name, rules, rel);
      }
    }
    assert d.Keys - todo == d.Keys;
    WellFormedFromChildren(t, rules.valid);
  }

  lemma WellFormedFromChildren(t: Tree, valid: string -> bool)
    requires forall name :: name in t ==> valid(name)
    requires forall name :: name in t && t[name].Dir? ==>
               t[name].children != map[] && NamesValid(t[name].children, valid) && NoEmptyDirs(t[name].children)
    ensures NamesValid(t, valid) && NoEmptyDirs(t)
  {
    forall p: Path | p != [] && Subtree(t, p).Some?
      ensures Subtree(t, p).value != map[]
      ensures forall name :: name in Subtree(t, p).value ==> valid(name)
    {
      assert Subtree(t, p) == Subtree(t[p[0]].children, p[1..]);
    }
    assert Subtree(t, []) == Some(t);
  }

  /** What a backup stores of a directory can always be read back by a pull, with the same content. */
  method BackupThenRead(d: LiveDirectory, rules: Rules, rel: Path) returns (ok: bool, files: map<Path, Blob>)
    ensures ok
    ensures forall p :: Get(files, p) ==
              if Kept(rules, rel, p) && LiveLookup(d, p).Some? then Some(LiveLookup(d, p).value.blob) else None
  {
    var t := BuildDirTree(d, rules, rel);
    ok, files := FilesUnder(t, rules.valid, []);
    assert Subtree(t, []) == Some(t);
    forall p: Path
      ensures Get(files, p) ==
        if Kept(rules, rel, p) && LiveLookup(d, p).Some? then Some(LiveLookup(d, p).value.blob) else None
    {
      assert [] + p == p;
      assert Lookup(t, p) == if p != [] && p[0] in d.Keys && Kept(rules, rel, p) then LiveLookup(d, p) else None;
    }
  }

  /** A directory is "not present" exactly when it keeps no file at all. */
  lemma NotPresentIffNothingKept(t: Tree, d: LiveDirectory, rules: Rules, rel: Path)
    requires Backs(t, d, d.Keys, rules, rel) && NoEmptyDirs(t)
    ensures t == map[] <==> forall p :: Kept(rules, rel, p) ==> LiveLookup(d, p).None?
  {
    if t != map[] {
      var name :| name in t;
      var p := NonEmptyTreeHasFile(t[name], name, t);
      assert Lookup(t, p).Some?;
    } else {
      forall p | Kept(rules, rel, p)
        ensures LiveLookup(d, p).None?
      {
        assert Lookup(t, p).None?;
      }
    }
  }

  // ----- a directory given by its files -----

  /** No file lies below another one. */
  ghost predicate ClashFree(files: map<Path, Blob>)
  {
    [] !in files && forall p, q :: p in files && q in files && p <= q ==> p == q
  }

  /** d holds exactly the given files. */
  ghost predicate Shows(d: LiveDirectory, files: map<Path, Blob>)
  {
    forall p :: LiveLookup(d, p) == if p in files then Some(Leaf(Regular, files[p])) else None
  }

  /** Creating the file p, with the directories it needs. */
  function LivePut(d: LiveDirectory, p: Path, leaf: Leaf): LiveDirectory
    requires p != []
    decreases |p|
  {
    if |p| == 1 then d[p[0] := LiveFile(leaf)]
    else
      var sub := if p[0] in d && d[p[0]].LiveDir? then d[p[0]].children else map[];
      d[p[0] := LiveDir(LivePut(sub, p[1..], leaf))]
  }

  lemma {:induction false} LivePutLookup(d: LiveDirectory, p: Path, leaf: Leaf, q: Path)
    requires p != []
    requires forall k :: 0 < k <= |p| ==> LiveLookup(d, p[..k]).None?
    requires p < q ==> LiveLookup(d, q).None?
    ensures LiveLookup(LivePut(d, p, leaf), q) == if q == p then Some(leaf) else LiveLookup(d, q)
    decreases |p|
  {
    if q != [] && q[0] == p[0] {
      if |p| == 1 {
        assert p[..1] == p;
        if |q| > 1 { assert p < q; } else { assert q == p; }
      } else {
        var sub := if p[0] in d && d[p[0]].LiveDir? then d[p[0]].children else map[];
        assert p[..1] == [p[0]] && LiveLookup(d, p[..1]).None?;
        forall k | 0 < k <= |p[1..]|
          ensures LiveLookup(sub, p[1..][..k]).None?
        {
          assert p[..k + 1][1..] == p[1..][..k] && LiveLookup(d, p[..k + 1]).None?;
        }
        assert q == p <==> q[1..] == p[1..];
        assert p[1..] < q[1..] ==> p < q;
        LivePutLookup(sub, p[1..], leaf, q[1..]);
        assert LiveLookup(LivePut(d, p, leaf), q) == LiveLookup(LivePut(sub, p[1..], leaf), q[1..]);
      }
    }
  }

  /** The directory os.ReadDir walks when the disk holds the given files. */
  method DirectoryOf(files: map<Path, Blob>) returns (d: LiveDirectory)
    requires ClashFree(files)
    ensures Shows(d, files)
  {
    d := map[];
    var todo := files.Keys;
    ghost var made: map<Path, Blob> := map[];
    while todo != {}
      invariant todo <= files.Keys && made.Keys == files.Keys - todo
      invariant forall p :: p in made ==> made[p] == files[p]
      invariant Shows(d, made)
    {
      var p :| p in todo;
      var leaf := Leaf(Regular, files[p]);
      forall k | 0 < k <= |p|
        ensures LiveLookup(d, p[..k]).None?
      {
        assert p[..k] <= p;
      }
      forall q
        ensures LiveLookup(LivePut(d, p, leaf), q) == if q == p then Some(leaf) else LiveLookup(d, q)
      {
        LivePutLookup(d, p, leaf, q);
      }
      d := LivePut(d, p, leaf);
      made := made[p := files[p]];
      todo := todo - {p};
    }
    assert made == files;
  }
}
